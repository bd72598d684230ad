/** The class-name string of an element as `addClass` and `removeClass` edit it:
    `addClass` appends with a single space, `removeClass` splits the string on
    the regular expression `/\W+/`, drops every token equal to the name and
    joins the rest with single spaces. */
module ClassLists {
  import opened JsStrings

  /** A character matched by `\w` in a JavaScript regular expression. */
  predicate IsWordChar(c: char)
  {
    'A' <= c <= 'Z' || 'a' <= c <= 'z' || '0' <= c <= '9' || c == '_'
  }

  /** A string made of word characters only (possibly empty). */
  predicate IsWord(t: string)
  {
    forall i :: 0 <= i < |t| ==> IsWordChar(t[i])
  }

  /** Drops the run of non-word characters at the front of `s`. */
  function SkipSeparator(s: string): (r: string)
    ensures |r| <= |s|
    ensures s != [] && !IsWordChar(s[0]) ==> |r| < |s|
    ensures r == [] || IsWordChar(r[0])
  {
    if s != [] && !IsWordChar(s[0]) then SkipSeparator(s[1..]) else s
  }

  /** `s.split(/\W+/)`: the word-character runs between maximal runs of
      non-word characters; a separator at either end yields an empty token
      there, and the empty string yields one empty token. */
  function SplitOnNonWord(s: string): (tokens: seq<string>)
    ensures |tokens| >= 1
    decreases |s|
  {
    if s == [] then [""]
    else if IsWordChar(s[0]) then
      var rest := SplitOnNonWord(s[1..]);
      [[s[0]] + rest[0]] + rest[1..]
    else
      [""] + SplitOnNonWord(SkipSeparator(s))
  }

  /** What a split by `/\W+/` can produce: at least one token, every token
      made of word characters, and only the first and last tokens empty. */
  predicate WellFormedTokens(tokens: seq<string>)
  {
    |tokens| >= 1 &&
    (forall i :: 0 <= i < |tokens| ==> IsWord(tokens[i])) &&
    (forall i :: 0 < i < |tokens| - 1 ==> tokens[i] != "")
  }

  /** Every split is well formed. */
  lemma {:induction false} SplitWellFormed(s: string)
    ensures WellFormedTokens(SplitOnNonWord(s))
    decreases |s|
  {
    if s == [] {
    } else if IsWordChar(s[0]) {
      SplitWellFormed(s[1..]);
      var rest := SplitOnNonWord(s[1..]);
      var tokens := [[s[0]] + rest[0]] + rest[1..];
      assert tokens == SplitOnNonWord(s);
      forall i | 0 <= i < |tokens| ensures IsWord(tokens[i]) {
        if i > 0 { assert tokens[i] == rest[i]; }
      }
      forall i | 0 < i < |tokens| - 1 ensures tokens[i] != "" {
        assert tokens[i] == rest[i];
      }
    } else {
      var r := SkipSeparator(s);
      SplitWellFormed(r);
      var rest := SplitOnNonWord(r);
      var tokens := [""] + rest;
      assert tokens == SplitOnNonWord(s);
      assert |rest| > 1 ==> r != [] && IsWordChar(r[0]) && rest[0] != "";
      forall i | 0 < i < |tokens| - 1 ensures tokens[i] != "" {
        assert tokens[i] == rest[i - 1];
      }
      forall i | 0 <= i < |tokens| ensures IsWord(tokens[i]) {
        if i > 0 { assert tokens[i] == rest[i - 1]; }
      }
    }
  }

  /** A string starting with a run of word characters: the run joins the
      first token. */
  lemma {:induction false} SplitWordPrefix(w: string, s: string)
    requires IsWord(w)
    ensures SplitOnNonWord(w + s) ==
            [w + SplitOnNonWord(s)[0]] + SplitOnNonWord(s)[1..]
    decreases |w|
  {
    if w != [] {
      var tail := SplitOnNonWord(w[1..] + s);
      assert IsWordChar(w[0]);
      assert (w + s)[0] == w[0] && (w + s)[1..] == w[1..] + s;
      assert SplitOnNonWord(w + s) == [[w[0]] + tail[0]] + tail[1..];
      assert IsWord(w[1..]) by {
        forall i | 0 <= i < |w[1..]| ensures IsWordChar(w[1..][i]) {
          assert w[1..][i] == w[i + 1];
        }
      }
      SplitWordPrefix(w[1..], s);
      assert [w[0]] + (w[1..] + SplitOnNonWord(s)[0]) == w + SplitOnNonWord(s)[0];
    } else {
      var rs := SplitOnNonWord(s);
      assert w + s == s && w + rs[0] == rs[0];
      assert rs == [rs[0]] + rs[1..];
    }
  }

  /** Splitting what `join(' ')` made of well-formed tokens gives the tokens back. */
  lemma {:induction false} SplitJoin(tokens: seq<string>)
    requires WellFormedTokens(tokens)
    ensures SplitOnNonWord(Join(" ", tokens)) == tokens
    decreases |tokens|
  {
    if |tokens| == 1 {
      SplitWordPrefix(tokens[0], "");
      assert tokens[0] + "" == tokens[0];
    } else {
      var rest := tokens[1..];
      assert WellFormedTokens(rest) by {
        forall i | 0 < i < |rest| - 1 ensures rest[i] != "" {
          assert rest[i] == tokens[i + 1];
        }
        forall i | 0 <= i < |rest| ensures IsWord(rest[i]) {
          assert rest[i] == tokens[i + 1];
        }
      }
      var j := Join(" ", rest);
      SplitJoin(rest);
      assert j == [] || IsWordChar(j[0]) by {
        if rest[0] != "" {
          assert j[0] == j[..|rest[0]|][0] == rest[0][0];
        } else {
          assert |rest| == 1;
        }
      }
      assert SkipSeparator(" " + j) == j by {
        assert (" " + j)[1..] == j;
      }
      assert SplitOnNonWord(" " + j) == [""] + rest;
      assert Join(" ", tokens) == tokens[0] + (" " + j);
      SplitWordPrefix(tokens[0], " " + j);
      assert tokens[0] + "" == tokens[0];
      assert ([""] + rest)[1..] == rest;
      assert tokens == [tokens[0]] + rest;
    }
  }

  /** `tokens.filter(t => t !== name)`. */
  function Without(tokens: seq<string>, name: string): (r: seq<string>)
    ensures |r| <= |tokens|
    ensures forall t :: t in r <==> t in tokens && t != name
  {
    if tokens == [] then []
    else if tokens[0] == name then Without(tokens[1..], name)
    else [tokens[0]] + Without(tokens[1..], name)
  }

  /** Filtering keeps relative order: it distributes over concatenation. */
  lemma {:induction false} WithoutAppend(a: seq<string>, b: seq<string>, name: string)
    ensures Without(a + b, name) == Without(a, name) + Without(b, name)
    decreases |a|
  {
    if a == [] {
      assert a + b == b;
    } else {
      assert (a + b)[0] == a[0] && (a + b)[1..] == a[1..] + b;
      WithoutAppend(a[1..], b, name);
    }
  }

  /** Filtering out a name that does not occur changes nothing. */
  lemma {:induction false} WithoutAbsent(tokens: seq<string>, name: string)
    requires name !in tokens
    ensures Without(tokens, name) == tokens
    decreases |tokens|
  {
    if tokens != [] {
      assert tokens[0] != name;
      assert tokens == [tokens[0]] + tokens[1..];
      WithoutAbsent(tokens[1..], name);
    }
  }

  /** A list whose first and last parts hold at most one token each and
      whose middle has no empty token has no empty interior token. */
  lemma InteriorNonEmpty(f: seq<string>, m: seq<string>, l: seq<string>)
    requires |f| <= 1 && |l| <= 1
    requires forall k :: 0 <= k < |m| ==> m[k] != ""
    ensures forall i :: 0 < i < |f + m + l| - 1 ==> (f + m + l)[i] != ""
  {
    forall i | 0 < i < |f + m + l| - 1 ensures (f + m + l)[i] != "" {
      assert (f + m + l)[i] == m[i - |f|];
    }
  }

  /** Filtering the interior tokens of a well-formed split leaves no empty token. */
  lemma MiddleNonEmpty(tokens: seq<string>, name: string)
    requires WellFormedTokens(tokens) && |tokens| >= 2
    ensures var m := Without(tokens[1..|tokens| - 1], name);
      forall k :: 0 <= k < |m| ==> m[k] != ""
  {
    var middle := tokens[1..|tokens| - 1];
    var m := Without(middle, name);
    forall k | 0 <= k < |m| ensures m[k] != "" {
      assert m[k] in middle;
      var j :| 0 <= j < |middle| && middle[j] == m[k];
      assert middle[j] == tokens[j + 1];
    }
  }

  /** A non-empty result of filtering a well-formed split is well formed. */
  lemma WithoutWellFormed(tokens: seq<string>, name: string)
    requires WellFormedTokens(tokens)
    requires Without(tokens, name) != []
    ensures WellFormedTokens(Without(tokens, name))
  {
    var n := |tokens|;
    var r := Without(tokens, name);
    forall i | 0 <= i < |r| ensures IsWord(r[i]) {
      assert r[i] in tokens;
    }
    if n >= 2 {
      var first, middle, last := tokens[..1], tokens[1..n - 1], tokens[n - 1..];
      assert tokens == first + middle + last;
      WithoutAppend(first + middle, last, name);
      WithoutAppend(first, middle, name);
      var m := Without(middle, name);
      MiddleNonEmpty(tokens, name);
      assert r == Without(first, name) + m + Without(last, name);
      InteriorNonEmpty(Without(first, name), m, Without(last, name));
    }
  }

  /** The class string after `addClass(name)`: the name alone when the old
      string is empty (falsy), otherwise the old string, a space and the name.
      Nothing is deduplicated. */
  function AddedClass(className: string, name: string): (r: string)
  {
    if className != "" then className + " " + name else name
  }

  /** The class string after `removeClass(name)`. */
  function RemovedClass(className: string, name: string): (r: string)
  {
    Join(" ", Without(SplitOnNonWord(className), name))
  }

  /** After `removeClass(name)` the split of the class string is exactly the
      old split with every token equal to `name` dropped, in the old order
      (or the empty string when nothing is left); so no token equals a
      non-empty `name`. */
  lemma RemovedClassTokens(className: string, name: string)
    ensures var kept := Without(SplitOnNonWord(className), name);
      (kept == [] ==> RemovedClass(className, name) == "") &&
      (kept != [] ==> SplitOnNonWord(RemovedClass(className, name)) == kept)
    ensures name != "" ==> name !in SplitOnNonWord(RemovedClass(className, name))
  {
    var kept := Without(SplitOnNonWord(className), name);
    if kept != [] {
      SplitWellFormed(className);
      WithoutWellFormed(SplitOnNonWord(className), name);
      SplitJoin(kept);
    } else {
      assert RemovedClass(className, name) == "";
      assert SplitOnNonWord("") == [""];
    }
  }

  /** A class string in canonical form: non-empty class names of word
      characters separated by single spaces. */
  predicate IsClassNames(names: seq<string>)
  {
    forall i :: 0 <= i < |names| ==> names[i] != "" && IsWord(names[i])
  }

  /** `addClass` on a canonical class string appends the name as a new last
      token, whether or not it is already present. */
  lemma AddedClassAppends(names: seq<string>, name: string)
    requires IsClassNames(names)
    requires name != "" && IsWord(name)
    ensures AddedClass(Join(" ", names), name) == Join(" ", names + [name])
    ensures SplitOnNonWord(AddedClass(Join(" ", names), name)) == names + [name]
  {
    JoinSnoc(" ", names, name);
    if names != [] {
      assert |Join(" ", names)| >= |names[0]| > 0;
    }
    SplitJoin(names + [name]);
  }

  /** `removeClass(name)` undoes `addClass(name)` on a canonical class string
      that does not contain `name`. */
  lemma RemoveUndoesAdd(names: seq<string>, name: string)
    requires IsClassNames(names)
    requires name != "" && IsWord(name) && name !in names
    ensures RemovedClass(AddedClass(Join(" ", names), name), name) == Join(" ", names)
  {
    AddedClassAppends(names, name);
    WithoutAppend(names, [name], name);
    WithoutAbsent(names, name);
    assert Without([name], name) == [];
    assert names + [] == names;
  }

  /** A run of word characters is a single token. */
  lemma SplitWord(w: string)
    requires IsWord(w)
    ensures SplitOnNonWord(w) == [w]
  {
    SplitWordPrefix(w, "");
    assert w + "" == w;
  }

  /** A hyphenated class splits into two tokens, so removing one of them
      leaves the other. */
  lemma HyphenSplitExample()
    ensures SplitOnNonWord("foo-bar") == ["foo", "bar"]
    ensures RemovedClass("foo-bar", "bar") == "foo"
  {
    SplitWord("bar");
    assert SkipSeparator("-bar") == "bar";
    assert SplitOnNonWord("-bar") == ["", "bar"];
    SplitWordPrefix("foo", "-bar");
    assert "foo" + "-bar" == "foo-bar";
    assert "foo" + "" == "foo";
    assert ["foo"] + ["bar"] == ["foo", "bar"];
    assert Without(["foo", "bar"], "bar") == ["foo"];
  }

  /** A leading separator gives an empty first token, which survives the
      rejoin as a leading space. */
  lemma LeadingSeparatorExample()
    ensures SplitOnNonWord(" a b") == ["", "a", "b"]
    ensures RemovedClass(" a b", "b") == " a"
  {
    SplitWord("b");
    assert SkipSeparator(" b") == "b";
    assert SplitOnNonWord(" b") == ["", "b"];
    SplitWordPrefix("a", " b");
    assert "a" + " b" == "a b";
    assert "a" + "" == "a";
    assert ["a"] + ["b"] == ["a", "b"];
    assert SplitOnNonWord("a b") == ["a", "b"];
    assert SkipSeparator(" a b") == "a b";
    assert SplitOnNonWord(" a b") == ["", "a", "b"];
    assert Without(["", "a", "b"], "b") == ["", "a"];
    assert Join(" ", ["", "a"]) == "" + " " + "a";
  }
}
