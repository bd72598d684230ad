# DomBuilder and ImageSet, modelled in Dafny

This project models the DOM construction helpers of `src/dombuilder.js`:

- **`ImageSet`** wraps a mapping from pixel size to image. On first use it
  computes the base size, caches it and never recomputes it. To do so it
  collects the keys as numbers, sorts them with the default comparator of
  `Array.prototype.sort` and takes the first. From the base size it gives:
  - the default image, which is the image stored under the base size;
  - the `srcset` descriptor: one image candidate `"<image> <size/base>x"` per
    other size, in the mapping's iteration order, separated by `", "`. This is
    the `x`-descriptor form of section 4.8.4.2.1 of the HTML Living Standard.
- **`DomBuilder`** is a cursor over a tree under construction. It keeps a stack
  of open elements.
  - `begin` appends a fresh element to the cursor, pushes it and makes it the
    cursor. `end` pops it again.
  - `appendText`, `setAttribute`, `addClass`, `removeClass` and `setImageSet`
    change only the cursor element.

Files:

- `wrappers.dfy`: `Option`, standing for a value or JavaScript's `undefined`.
- `js_strings.dfy`: the JavaScript string behaviour the code relies on.
  - `Decimal` writes the decimal digits of a non-negative integer. That is
    `String(n)` for integers below 10^21, and so for every size the model
    admits (sizes are below 2^53).
  - `StringLe` is the code-unit order that the default sort comparator uses.
  - `Join` is `Array.prototype.join`.
- `class_lists.dfy`: the class string as `addClass` and `removeClass` edit it.
  `SplitOnNonWord` is `split(/\W+/)`, and `Without` is the `filter`.
- `image_sets.dfy`: the mapping as specification functions, and the
  `ImageSet` class with its memo field.
- `dom_builder.dfy`: the `Node` and `DomBuilder` classes.

The default sort compares the decimal strings of the numbers, so the base size
is the key whose decimal string comes first. That is the numeric minimum only
when every key has the same number of digits. With sizes 20 and 100 the base
is 100 (`BaseSizeOfMixedDigits`). The model follows the code here. The comment
above `getBaseSize` ("the smallest image") promises a numeric minimum; the
model proves that only for keys of equal length.

An empty mapping leaves `undefined` in the memo. `undefined` is not `null`, so
it is not recomputed either. The model keeps this as `Cached(None)`. The
default image is then `undefined`, so `setImageSet` sets `src` to `undefined`.
The descriptor is then `""`.

A new DOM element's `className` is `""`. So `removeClass` before any `addClass`
yields `""` and does not fault.

## Model

| member | source | states |
|---|---|---|
| `ImageSets.SortKeys` | src/dombuilder.js:32 | `keys.sort()` gives a permutation of the keys that is sorted in decimal-string order |
| `ImageSets.BaseSizeIsLeastKey` | src/dombuilder.js:26-35 | a base size exists exactly for a non-empty mapping; it is one of the keys and no key's decimal string comes before its own |
| `ImageSets.BaseSizeCharacterised` | src/dombuilder.js:32-33 | conversely, any key that no key comes before is the base size, so the base size is unique |
| `ImageSets.BaseSizeIsMinimumForEqualDigits` | src/dombuilder.js:25-33 | when all keys have the same number of digits, the base size is the numeric minimum |
| `ImageSets.BaseSizeOfMixedDigits` | src/dombuilder.js:32-33 | of the sizes 20 and 100 the base size is 100, so in general it is not the smallest |
| `JsStrings.DecimalOrderIsNumeric` | src/dombuilder.js:32 | for numbers of equal digit count, the string order of their decimal strings is numeric order, in both directions |
| `JsStrings.DecimalRoundTrip` | src/dombuilder.js:30 | reading back the decimal string of a key gives the key, so distinct keys compare as distinct strings |
| `ImageSets.ImageSet.constructor` | src/dombuilder.js:20-23 | the new set holds the mapping and no cached base size |
| `ImageSets.ImageSet.GetBaseSize` | src/dombuilder.js:26-36 | returns the base size of the mapping and caches it; an existing cache entry is returned and kept unchanged |
| `ImageSets.Lookup` | src/dombuilder.js:40 | `get` finds an image exactly when the key is present, returns an entry's image, and with distinct keys returns the image of every entry with that key |
| `ImageSets.DefaultImageIsBaseImage` | src/dombuilder.js:39-41 | a default image exists exactly for a non-empty mapping and equals the image stored under the base size |
| `ImageSets.ImageSet.GetDefaultImage` | src/dombuilder.js:39-41 | returns the image under the base size and leaves the cache holding the base size, keeping an existing entry |
| `ImageSets.CandidatesCount` | src/dombuilder.js:47-54 | one candidate per entry whose size differs from the base, so one fewer than the entries when the base is a key |
| `ImageSets.ExtraImageSetEmpty` | src/dombuilder.js:44-55 | the descriptor is empty exactly when the mapping has at most one entry |
| `ImageSets.ImageSet.GetExtraImageSet` | src/dombuilder.js:44-56 | the loop builds the candidates of the non-base sizes, in iteration order, joined by ", " without leading or trailing separator; it keeps the cache |
| `ImageSets.DefaultImageExample` | src/dombuilder.js:39-41 | the sizes 100, 200 and 300 give the default image of 100 |
| `ImageSets.ExtraImageSetExample` | src/dombuilder.js:44-55 | the sizes 100, 200 and 300 give "b 2x, c 3x" when whole ratios are written as integers |
| `ImageSets.FractionalRatioExample` | src/dombuilder.js:53 | the sizes 10 and 15 give one candidate for 15, with the ratio 15/10 as the renderer writes it |
| `ClassLists.SplitWellFormed` | src/dombuilder.js:114 | `split(/\W+/)` yields at least one token; every token is word characters; only the first and last can be empty |
| `ClassLists.SplitJoin` | src/dombuilder.js:114-116 | splitting what `join(' ')` made of well-formed tokens gives the same tokens back |
| `ClassLists.WithoutAppend` | src/dombuilder.js:115 | the filter keeps relative order: it distributes over concatenation |
| `ClassLists.WithoutAbsent` | src/dombuilder.js:115 | filtering out a name that does not occur changes nothing |
| `ClassLists.RemovedClassTokens` | src/dombuilder.js:113-116 | after `removeClass(name)` the tokens are the old tokens without `name`, in the old order, or the string is empty; no token equals a non-empty `name` |
| `ClassLists.AddedClassAppends` | src/dombuilder.js:102-108 | on a class string of single-space-separated names, `addClass` appends the name as a new last token, even if it is already present |
| `ClassLists.RemoveUndoesAdd` | src/dombuilder.js:102-118 | `removeClass(name)` after `addClass(name)` restores a class string that did not contain `name` |
| `ClassLists.HyphenSplitExample` | src/dombuilder.js:114 | "foo-bar" splits into "foo" and "bar", so removing "bar" leaves "foo" |
| `ClassLists.LeadingSeparatorExample` | src/dombuilder.js:113-116 | " a b" splits into "", "a", "b", so removing "b" leaves " a" |
| `DomBuilders.Node.Element` | src/dombuilder.js:74 | a created element has the tag name, no children, an empty class string and no properties |
| `DomBuilders.Node.Text` | src/dombuilder.js:83 | a created text node holds the text |
| `DomBuilders.DomBuilder.constructor` | src/dombuilder.js:61-64 | the stack holds the parent alone and the parent is the cursor |
| `DomBuilders.DomBuilder.Attach` | src/dombuilder.js:67-69 | a fresh builder whose stack holds the element alone |
| `DomBuilders.DomBuilder.Begin` | src/dombuilder.js:73-79 | a fresh element becomes the last child of the old cursor, is pushed on the unchanged stack and becomes the cursor; the old cursor's class string and properties stay |
| `DomBuilders.DomBuilder.End` | src/dombuilder.js:139-143 | with at least two entries, the stack loses its top and the cursor becomes the new top |
| `DomBuilders.DomBuilder.AppendText` | src/dombuilder.js:82-85 | a fresh text node with the text becomes the cursor's last child; earlier children, the stack and the cursor stay |
| `DomBuilders.DomBuilder.SetAttribute` | src/dombuilder.js:96-99 | the cursor's property `name` becomes the value, and `className` sets the class string; nothing else changes |
| `DomBuilders.DomBuilder.AddClass` | src/dombuilder.js:102-109 | the class string becomes the name if it was empty, else the old string, a space and the name |
| `DomBuilders.DomBuilder.RemoveClass` | src/dombuilder.js:112-118 | the class string becomes the rejoin of its `/\W+/` tokens without `name` |
| `DomBuilders.DomBuilder.SetImageSet` | src/dombuilder.js:88-93 | `src` becomes the default image (or `undefined`) and `srcset` the descriptor; the other properties, the children and the class string stay |
| `DomBuilders.DomBuilder.ForEach` | src/dombuilder.js:123-129 | the callback receives each element once, in order, with index 0, 1, 2, … equal to its position |
| `DomBuilders.DomBuilder.WithCurrentNode` | src/dombuilder.js:132-135 | the node handed to the callback is the top of the stack |
| `DomBuilders.BeginThenEnd` | src/dombuilder.js:139-143 | `begin` followed by `end` restores the stack and the cursor, leaving one more child under the cursor |
| `DomBuilders.NestedExample` | src/dombuilder.js:73-79 | begin div, begin span, end, begin p, end, end builds root > div > [span, p] and returns to depth 1 |
| `DomBuilders.ClassExample` | src/dombuilder.js:102-118 | addClass "a" then "b" on an empty class string gives "a b"; removeClass "a" then leaves "b" |

Every method keeps `Valid()`: the stack is non-empty, the cursor is its top,
and each stack entry is a child of the entry below it.

## Left out

- `utils.Map` is not part of this model. The mapping is a sequence of (size, image) entries in iteration order, with sizes as non-negative integers below 2^53 (the type `ImageSets.Size`). Below 2^53 `Number(key)` is exact, so distinct keys stay distinct numbers, and `String` writes the plain digits back. Larger sizes, where `Number(key)` rounds and `String` switches to exponent notation from 10^21, are not modelled. The wrapper's conversion between string and number keys is not modelled, and neither are negative or fractional sizes.
- `ImageSets.ImageSet.GetExtraImageSet`: the JavaScript rendering of the number `size / base` is floating-point formatting. It is a parameter `render`. The examples assume only that whole ratios are written as their decimal digits.
- The mapping is immutable in the model. So the stale cached base size that follows a later mutation of the mapping is not modelled.
- `browser.createElement` and `browser.createTextNode` are host calls. They are modelled as allocating a fresh `Node`. Tag names, text and property values get no DOM meaning.
- `DomBuilders.DomBuilder.End`: requires at least two stack entries. At depth 1 the source pops the root and leaves the cursor `undefined`, which the model does not represent.
- `DomBuilders.DomBuilder.ForEach`: the callback's effects on the builder are not modelled. The method returns the (element, index) arguments of the successive calls. Holes of sparse arrays, which `Array.prototype.forEach` skips, are not modelled.
- `DomBuilders.DomBuilder.WithCurrentNode`: the callback's effects are not modelled. The method returns the node handed to it.
- Every operation returns `this` for chaining. The model runs the calls one after another instead.
- `DomBuilders.DomBuilder.SetAttribute`: values are strings or `undefined`. Of the DOM's reflected properties, only `className` is modelled.
- Appending a child to a text node, which the DOM rejects, is not modelled. The builder's cursor is assumed to be an element.
- Strings are sequences of Unicode scalar values, not UTF-16 code units. For the decimal digits and class names compared here the order is the same.
