/** `DomBuilder`: a cursor over a tree under construction. The builder keeps
    the chain of open elements from the element it was attached to down to
    the current one; `begin` opens a new child element, `end` closes it, and
    the other operations change only the current element. */
module DomBuilders {
  import opened Wrappers
  import opened ClassLists
  import opened ImageSets

  /** A JavaScript value stored in an element property: a string, or
      `undefined`. */
  datatype Value = Undefined | Str(s: string)

  /** The string a DOM string property keeps when it is assigned `v`. */
  function PropertyString(v: Value): (s: string)
  {
    match v
    case Undefined => "undefined"
    case Str(s) => s
  }

  /** A node of the tree: an element with a tag name, or a text node with
      its text. Elements carry their children, their class string and the
      other properties assigned through `setAttribute`. */
  class Node {
    const isText: bool
    const tagName: string
    const data: string
    var children: seq<Node>
    var className: string
    var props: map<string, Value>

    /** `createElement(tagName)`: a new element with no children, an empty
        class string and no properties. */
    constructor Element(tagName: string)
      ensures !isText && this.tagName == tagName
      ensures children == [] && className == "" && props == map[]
    {
      isText := false;
      this.tagName := tagName;
      data := "";
      children := [];
      className := "";
      props := map[];
    }

    /** `createTextNode(data)`: a new text node. */
    constructor Text(data: string)
      ensures isText && this.data == data
      ensures children == [] && className == "" && props == map[]
    {
      isText := true;
      tagName := "";
      this.data := data;
      children := [];
      className := "";
      props := map[];
    }
  }

  class DomBuilder {
    var stack: seq<Node>
    var current: Node

    /** The stack is never empty, the cursor is its top, and each entry is a
        child of the entry below it. */
    ghost predicate Valid()
      reads this, stack
    {
      |stack| >= 1 &&
      current == stack[|stack| - 1] &&
      forall i :: 0 < i < |stack| ==> stack[i] in stack[i - 1].children
    }

    /** Attaches a builder to `parent`: the stack holds `parent` alone. */
    constructor (parent: Node)
      ensures Valid()
      ensures stack == [parent] && current == parent
    {
      stack := [parent];
      current := parent;
    }

    /** `DomBuilder.attach(element)`: a new builder on `element`. */
    static method Attach(element: Node) returns (builder: DomBuilder)
      ensures fresh(builder) && builder.Valid()
      ensures builder.stack == [element] && builder.current == element
    {
      builder := new DomBuilder(element);
    }

    /** `begin(tagName)`: a fresh element becomes the last child of the
        cursor, is pushed and becomes the cursor. */
    method Begin(tagName: string)
      requires Valid()
      modifies this, current
      ensures Valid()
      ensures fresh(current) && !current.isText && current.tagName == tagName
      ensures current.children == [] && current.className == "" && current.props == map[]
      ensures stack == old(stack) + [current]
      ensures old(current).children == old(current.children) + [current]
      ensures old(current).className == old(current.className)
      ensures old(current).props == old(current.props)
    {
      var element := new Node.Element(tagName);
      current.children := current.children + [element];
      stack := stack + [element];
      current := element;
    }

    /** `end()`: pops the stack; its new top becomes the cursor. The element
        the builder was attached to is never popped. */
    method End()
      requires Valid() && |stack| >= 2
      modifies this
      ensures Valid()
      ensures stack == old(stack)[..|old(stack)| - 1]
      ensures current == old(stack)[|old(stack)| - 2]
    {
      stack := stack[..|stack| - 1];
      current := stack[|stack| - 1];
    }

    /** `appendText(str)`: a fresh text node becomes the last child of the
        cursor; the stack and the cursor stay. */
    method AppendText(str: string)
      requires Valid()
      modifies current
      ensures Valid()
      ensures |current.children| == |old(current.children)| + 1
      ensures current.children[..|current.children| - 1] == old(current.children)
      ensures fresh(current.children[|current.children| - 1])
      ensures current.children[|current.children| - 1].isText
      ensures current.children[|current.children| - 1].data == str
      ensures current.className == old(current.className) && current.props == old(current.props)
    {
      var text := new Node.Text(str);
      current.children := current.children + [text];
    }

    /** `setAttribute(name, value)`: `current[name] = value`. The name
        `className` is the class string property itself. */
    method SetAttribute(name: string, value: Value)
      requires Valid()
      modifies current
      ensures Valid()
      ensures current.children == old(current.children)
      ensures name == "className" ==>
        current.className == PropertyString(value) && current.props == old(current.props)
      ensures name != "className" ==>
        current.props == old(current.props)[name := value] && current.className == old(current.className)
    {
      if name == "className" {
        current.className := PropertyString(value);
      } else {
        current.props := current.props[name := value];
      }
    }

    /** `addClass(name)`. */
    method AddClass(name: string)
      requires Valid()
      modifies current
      ensures Valid()
      ensures current.className == AddedClass(old(current.className), name)
      ensures current.children == old(current.children) && current.props == old(current.props)
    {
      if current.className != "" {
        current.className := current.className + " " + name;
      } else {
        current.className := name;
      }
    }

    /** `removeClass(name)`. */
    method RemoveClass(name: string)
      requires Valid()
      modifies current
      ensures Valid()
      ensures current.className == RemovedClass(old(current.className), name)
      ensures current.children == old(current.children) && current.props == old(current.props)
    {
      current.className := RemovedClass(current.className, name);
    }

    /** `setImageSet(icon)`: `src` becomes the default image (undefined for an
        empty mapping) and `srcset` the descriptor of the other images. */
    method SetImageSet(icon: Icon, render: RatioRenderer)
      requires Valid()
      modifies current
      ensures Valid()
      ensures current.props == old(current.props)
        ["src" := if DefaultImage(icon).Some? then Str(DefaultImage(icon).value) else Undefined]
        ["srcset" := Str(ExtraImageSet(icon, render))]
      ensures current.children == old(current.children) && current.className == old(current.className)
    {
      var iconset := new ImageSet(icon);
      var image := iconset.GetDefaultImage();
      SetAttribute("src", if image.Some? then Str(image.value) else Undefined);
      var srcset := iconset.GetExtraImageSet(render);
      SetAttribute("srcset", Str(srcset));
    }

    /** The index-passing part of `forEach(elements, thunk)`: the arguments
        of the successive calls of `thunk`, each element with the count of
        calls before it. The builder itself is only the callback's second
        argument, so the method does not read it. */
    static method ForEach<T>(elements: seq<T>) returns (calls: seq<(T, nat)>)
      ensures |calls| == |elements|
      ensures forall k :: 0 <= k < |elements| ==> calls[k] == (elements[k], k)
    {
      calls := [];
      var index := 0;
      var k := 0;
      while k < |elements|
        invariant 0 <= k <= |elements|
        invariant index == k
        invariant |calls| == k
        invariant forall j :: 0 <= j < k ==> calls[j] == (elements[j], j)
      {
        calls := calls + [(elements[k], index)];
        index := index + 1;
        k := k + 1;
      }
    }

    /** `withCurrentNode(thunk)`: the node handed to `thunk` is the cursor. */
    method WithCurrentNode() returns (node: Node)
      requires Valid()
      ensures node == stack[|stack| - 1]
    {
      node := current;
    }
  }

  /** `begin(tagName)` followed by `end()` leaves the stack and the cursor as
      they were, with one more child under the cursor. */
  method BeginThenEnd(builder: DomBuilder, tagName: string)
    requires builder.Valid()
    modifies builder, builder.current
    ensures builder.Valid()
    ensures builder.stack == old(builder.stack) && builder.current == old(builder.current)
    ensures |builder.current.children| == |old(builder.current.children)| + 1
    ensures builder.current.children[..|old(builder.current.children)|] == old(builder.current.children)
  {
    builder.Begin(tagName);
    builder.End();
  }

  /** `begin("div").begin("span").end().begin("p").end().end()` on a root
      builds root > div > [span, p] and returns to the root. */
  method NestedExample(root: Node) returns (builder: DomBuilder)
    modifies root
    ensures builder.Valid() && builder.stack == [root] && builder.current == root
    ensures |root.children| == |old(root.children)| + 1
    ensures root.children[..|old(root.children)|] == old(root.children)
    ensures var div := root.children[|root.children| - 1];
      div.tagName == "div" && |div.children| == 2 &&
      div.children[0].tagName == "span" && div.children[1].tagName == "p" &&
      div.children[0].children == [] && div.children[1].children == []
  {
    builder := new DomBuilder(root);
    builder.Begin("div");
    var div := builder.current;
    builder.Begin("span");
    var span := builder.current;
    builder.End();
    builder.Begin("p");
    var p := builder.current;
    builder.End();
    builder.End();
    assert root.children == old(root.children) + [div];
    assert div.children == [span, p];
  }

  /** `addClass("a").addClass("b")` on a new element gives "a b", and
      `removeClass("a")` then leaves "b". */
  method ClassExample(builder: DomBuilder) returns (between: string)
    requires builder.Valid() && builder.current.className == ""
    modifies builder.current
    ensures between == "a b"
    ensures builder.Valid() && builder.current.className == "b"
  {
    builder.AddClass("a");
    builder.AddClass("b");
    between := builder.current.className;
    assert between == "a b";
    assert IsClassNames(["a"]);
    AddedClassAppends(["a"], "b");
    ghost var kept := Without(["a", "b"], "a");
    assert kept == ["b"];
    builder.RemoveClass("a");
  }
}
