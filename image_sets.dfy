/** `ImageSet`: a size-to-image mapping from which the builder takes the
    default image (`src`) and the density descriptors of the other images
    (`srcset`, the image-candidate strings with an `x` descriptor of section
    4.8.4.2.1 of the HTML Living Standard). */
module ImageSets {
  import opened Wrappers
  import opened JsStrings

  /** A pixel size: a key read with `Number(key)` as a non-negative integer.
      Below 2^53 the conversion is exact, and `String` writes the plain
      digits back. */
  type Size = n: nat | n < 0x20_0000_0000_0000

  /** The icon mapping: (pixel size, image) entries in the mapping's own
      iteration order. */
  type Icon = seq<(Size, string)>

  /** The renderer of the JavaScript number `size / base` as a string. */
  type RatioRenderer = (nat, nat) -> string

  /** A mapping has one entry per key. */
  predicate DistinctKeys(icon: Icon)
  {
    forall i, j :: 0 <= i < j < |icon| ==> icon[i].0 != icon[j].0
  }

  /** The keys of the mapping, in iteration order. */
  function Keys(icon: Icon): (keys: seq<nat>)
  {
    seq(|icon|, i requires 0 <= i < |icon| => icon[i].0)
  }

  /** The order of the default comparator of `Array.prototype.sort` on
      numbers: the order of their decimal strings. */
  predicate KeyLe(a: nat, b: nat)
  {
    StringLe(Decimal(a), Decimal(b))
  }

  lemma KeyLeTotal(a: nat, b: nat)
    ensures KeyLe(a, b) || KeyLe(b, a)
  {
    StringLeTotal(Decimal(a), Decimal(b));
  }

  lemma KeyLeAntisymmetric(a: nat, b: nat)
    requires KeyLe(a, b) && KeyLe(b, a)
    ensures a == b
  {
    StringLeAntisymmetric(Decimal(a), Decimal(b));
    DecimalInjective(a, b);
  }

  predicate SortedByKey(s: seq<nat>)
  {
    forall i :: 0 < i < |s| ==> KeyLe(s[i - 1], s[i])
  }

  /** Inserts `x` before the first element it is not after. */
  function Insert(x: nat, s: seq<nat>): (r: seq<nat>)
    ensures multiset(r) == multiset(s) + multiset{x}
    ensures |r| == |s| + 1
    ensures r[0] == x || (s != [] && r[0] == s[0])
    ensures SortedByKey(s) ==> SortedByKey(r)
  {
    if s == [] || KeyLe(x, s[0]) then [x] + s
    else
      KeyLeTotal(x, s[0]);
      assert s == [s[0]] + s[1..];
      [s[0]] + Insert(x, s[1..])
  }

  /** `keys.sort()` with the default comparator: a sorted permutation. */
  function SortKeys(keys: seq<nat>): (r: seq<nat>)
    ensures multiset(r) == multiset(keys)
    ensures |r| == |keys|
    ensures SortedByKey(r)
  {
    if keys == [] then []
    else
      assert keys == [keys[0]] + keys[1..];
      Insert(keys[0], SortKeys(keys[1..]))
  }

  /** The first element of a sorted sequence is not after any element. */
  lemma {:induction false} SortedHeadLeast(s: seq<nat>)
    requires SortedByKey(s) && s != []
    ensures forall k :: k in s ==> KeyLe(s[0], k)
    decreases |s|
  {
    if |s| == 1 {
      StringLeReflexive(Decimal(s[0]));
    } else {
      var t := s[1..];
      assert SortedByKey(t) by {
        forall i | 0 < i < |t| ensures KeyLe(t[i - 1], t[i]) {
          assert t[i - 1] == s[i] && t[i] == s[i + 1];
        }
      }
      SortedHeadLeast(t);
      forall k | k in s ensures KeyLe(s[0], k) {
        if k == s[0] {
          StringLeReflexive(Decimal(k));
        } else {
          assert k in t;
          StringLeTransitive(Decimal(s[0]), Decimal(t[0]), Decimal(k));
        }
      }
    }
  }

  /** What `getBaseSize` computes: the first key after the sort, or
      `undefined` (None) for an empty mapping. */
  function BaseSize(icon: Icon): (base: Option<nat>)
  {
    var sorted := SortKeys(Keys(icon));
    if sorted == [] then None else Some(sorted[0])
  }

  /** The base size exists exactly for a non-empty mapping, is one of its
      keys, and is not after any key in decimal-string order. */
  lemma BaseSizeIsLeastKey(icon: Icon)
    ensures BaseSize(icon).Some? <==> |icon| > 0
    ensures BaseSize(icon).Some? ==>
      BaseSize(icon).value in Keys(icon) &&
      forall k :: k in Keys(icon) ==> KeyLe(BaseSize(icon).value, k)
  {
    var keys := Keys(icon);
    var sorted := SortKeys(keys);
    if sorted != [] {
      SortedHeadLeast(sorted);
      assert sorted[0] in multiset(sorted);
      forall k | k in keys ensures k in sorted {
        assert k in multiset(keys);
      }
    }
  }

  /** Conversely, a key that is not after any key is the base size. */
  lemma BaseSizeCharacterised(icon: Icon, b: nat)
    requires b in Keys(icon)
    requires forall k :: k in Keys(icon) ==> KeyLe(b, k)
    ensures BaseSize(icon) == Some(b)
  {
    BaseSizeIsLeastKey(icon);
    KeyLeAntisymmetric(b, BaseSize(icon).value);
  }

  /** When every key has the same number of digits the base size is the
      numeric minimum, as the source's comment promises. */
  lemma BaseSizeIsMinimumForEqualDigits(icon: Icon)
    requires |icon| > 0
    requires forall i, j :: 0 <= i < |icon| && 0 <= j < |icon| ==>
      |Decimal(icon[i].0)| == |Decimal(icon[j].0)|
    ensures BaseSize(icon).Some?
    ensures forall i :: 0 <= i < |icon| ==> BaseSize(icon).value <= icon[i].0
  {
    BaseSizeIsLeastKey(icon);
    var b := BaseSize(icon).value;
    var keys := Keys(icon);
    var j :| 0 <= j < |keys| && keys[j] == b;
    forall i | 0 <= i < |icon| ensures b <= icon[i].0 {
      assert keys[i] in keys;
      DecimalOrderIsNumeric(b, icon[i].0);
    }
  }

  /** With keys of different lengths the sort is not numeric: of the sizes
      20 and 100 the base size is 100. */
  lemma BaseSizeOfMixedDigits()
    ensures BaseSize([(20, "small"), (100, "large")]) == Some(100)
  {
    var icon := [(20, "small"), (100, "large")];
    assert Decimal(20) == "20" && Decimal(100) == "100";
    assert Keys(icon) == [20, 100];
    assert KeyLe(100, 20);
    StringLeReflexive(Decimal(100));
    BaseSizeCharacterised(icon, 100);
  }

  /** `icon_.get(key)`: the image of the first entry with that key. */
  function Lookup(icon: Icon, key: nat): (r: Option<string>)
    ensures r.Some? <==> key in Keys(icon)
    ensures r.Some? ==> (key, r.value) in icon
    ensures DistinctKeys(icon) && r.Some? ==>
      forall i :: 0 <= i < |icon| && icon[i].0 == key ==> icon[i].1 == r.value
  {
    if icon == [] then None
    else
      assert Keys(icon) == [icon[0].0] + Keys(icon[1..]);
      if icon[0].0 == key then Some(icon[0].1)
      else
        assert DistinctKeys(icon) ==> DistinctKeys(icon[1..]);
        Lookup(icon[1..], key)
  }

  /** What `getDefaultImage` returns. */
  function DefaultImage(icon: Icon): (image: Option<string>)
  {
    match BaseSize(icon)
    case None => None
    case Some(b) => Lookup(icon, b)
  }

  /** The default image exists exactly for a non-empty mapping and is the
      image stored under the base size. */
  lemma DefaultImageIsBaseImage(icon: Icon)
    requires DistinctKeys(icon)
    ensures DefaultImage(icon).Some? <==> |icon| > 0
    ensures DefaultImage(icon).Some? ==>
      forall i :: 0 <= i < |icon| && icon[i].0 == BaseSize(icon).value ==>
        icon[i].1 == DefaultImage(icon).value
  {
    BaseSizeIsLeastKey(icon);
  }

  /** One image candidate: the image, a space, the rendered ratio and `x`. */
  function Candidate(image: string, size: nat, base: nat, render: RatioRenderer): (c: string)
    ensures c != ""
  {
    image + " " + render(size, base) + "x"
  }

  /** The candidates for the entries whose size differs from the base, in
      iteration order. */
  function Candidates(icon: Icon, base: nat, render: RatioRenderer): (cs: seq<string>)
    ensures forall i :: 0 <= i < |cs| ==> cs[i] != ""
  {
    if icon == [] then []
    else
      var last := icon[|icon| - 1];
      Candidates(icon[..|icon| - 1], base, render) +
        (if last.0 == base then [] else [Candidate(last.1, last.0, base, render)])
  }

  /** One candidate per entry other than the base size. */
  lemma {:induction false} CandidatesCount(icon: Icon, base: nat, render: RatioRenderer)
    requires DistinctKeys(icon)
    ensures |Candidates(icon, base, render)| == if base in Keys(icon) then |icon| - 1 else |icon|
    decreases |icon|
  {
    if icon != [] {
      var init := icon[..|icon| - 1];
      assert Keys(icon) == Keys(init) + [icon[|icon| - 1].0];
      assert DistinctKeys(init);
      CandidatesCount(init, base, render);
      if icon[|icon| - 1].0 == base {
        assert base !in Keys(init);
      } else {
        assert base in Keys(icon) <==> base in Keys(init) by {
          forall k | k in Keys(icon) && k != icon[|icon| - 1].0 ensures k in Keys(init) {
            var i :| 0 <= i < |icon| && Keys(icon)[i] == k;
            assert Keys(init)[i] == k;
          }
        }
      }
    }
  }

  /** What `getExtraImageSet` returns: the candidates joined by ", ", or the
      empty string for an empty mapping. */
  function ExtraImageSet(icon: Icon, render: RatioRenderer): (srcset: string)
  {
    match BaseSize(icon)
    case None => ""
    case Some(b) => Join(", ", Candidates(icon, b, render))
  }

  /** The descriptor is empty exactly when the base image is the only image. */
  lemma ExtraImageSetEmpty(icon: Icon, render: RatioRenderer)
    requires DistinctKeys(icon)
    ensures ExtraImageSet(icon, render) == "" <==> |icon| <= 1
  {
    BaseSizeIsLeastKey(icon);
    if |icon| > 0 {
      var cs := Candidates(icon, BaseSize(icon).value, render);
      CandidatesCount(icon, BaseSize(icon).value, render);
      if cs != [] {
        assert |Join(", ", cs)| >= |cs[0]| > 0;
      }
    }
  }

  /** A renderer that writes a whole-number ratio as its decimal digits, as
      JavaScript does for integers. */
  ghost predicate RendersWholeRatios(render: RatioRenderer)
  {
    forall size: nat, base: nat :: base > 0 && size % base == 0 ==>
      render(size, base) == Decimal(size / base)
  }

  /** Of the sizes 100, 200 and 300 the base size is 100. */
  lemma BaseSizeOfEqualDigits()
    ensures BaseSize([(100, "a"), (200, "b"), (300, "c")]) == Some(100)
  {
    var icon := [(100, "a"), (200, "b"), (300, "c")];
    assert Decimal(100) == "100" && Decimal(200) == "200" && Decimal(300) == "300";
    assert Keys(icon) == [100, 200, 300];
    StringLeReflexive(Decimal(100));
    assert KeyLe(100, 200) && KeyLe(100, 300);
    BaseSizeCharacterised(icon, 100);
  }

  /** The candidates of the sizes 200 and 300 against the base 100. */
  lemma CandidatesExample(render: RatioRenderer)
    requires render(200, 100) == "2" && render(300, 100) == "3"
    ensures Candidates([(100, "a"), (200, "b"), (300, "c")], 100, render) == ["b 2x", "c 3x"]
  {
    var icon := [(100, "a"), (200, "b"), (300, "c")];
    assert Candidate("b", 200, 100, render) == "b 2x";
    assert Candidate("c", 300, 100, render) == "c 3x";
    assert icon[..2][..1] == [(100, "a")] && icon[..3][..2] == icon[..2];
    assert icon[..2][1] == (200, "b");
    assert Candidates([(100, "a")], 100, render) == [];
    assert Candidates(icon[..2], 100, render) == [] + ["b 2x"];
  }

  /** The sizes 100, 200 and 300 give the default image of 100. */
  lemma DefaultImageExample()
    ensures DefaultImage([(100, "a"), (200, "b"), (300, "c")]) == Some("a")
  {
    BaseSizeOfEqualDigits();
  }

  /** A renderer of whole ratios writes 200 / 100 as "2" and 300 / 100 as "3". */
  lemma WholeRatiosRendered(render: RatioRenderer)
    requires RendersWholeRatios(render)
    ensures render(200, 100) == "2" && render(300, 100) == "3"
  {
    assert 200 % 100 == 0 && 200 / 100 == 2 && Decimal(2) == "2";
    assert 300 % 100 == 0 && 300 / 100 == 3 && Decimal(3) == "3";
  }

  /** The sizes 100, 200 and 300 give the descriptor "b 2x, c 3x". */
  lemma ExtraImageSetExample(render: RatioRenderer)
    requires RendersWholeRatios(render)
    ensures ExtraImageSet([(100, "a"), (200, "b"), (300, "c")], render) == "b 2x, c 3x"
  {
    BaseSizeOfEqualDigits();
    WholeRatiosRendered(render);
    CandidatesExample(render);
    assert Join(", ", ["c 3x"]) == "c 3x";
    assert Join(", ", ["b 2x", "c 3x"]) == "b 2x" + ", " + "c 3x";
  }

  /** Of the sizes 10 and 15 the base size is 10. */
  lemma BaseSizeOfTenAndFifteen()
    ensures BaseSize([(10, "x"), (15, "y")]) == Some(10)
  {
    var icon := [(10, "x"), (15, "y")];
    assert Decimal(10) == "10" && Decimal(15) == "15";
    assert Keys(icon) == [10, 15];
    StringLeReflexive(Decimal(10));
    assert KeyLe(10, 15);
    BaseSizeCharacterised(icon, 10);
  }

  /** A ratio that is not whole is written as the renderer gives it: the
      sizes 10 and 15 give the one candidate of 15 against the base 10. */
  lemma FractionalRatioExample(render: RatioRenderer)
    ensures ExtraImageSet([(10, "x"), (15, "y")], render) == "y " + render(15, 10) + "x"
  {
    var icon := [(10, "x"), (15, "y")];
    BaseSizeOfTenAndFifteen();
    CandidatesStep(icon, 0, 10, render);
    CandidatesStep(icon, 1, 10, render);
    assert icon[..0] == [] && icon[..2] == icon;
    assert Candidates(icon, 10, render) == [Candidate("y", 15, 10, render)];
  }

  /** Extending the prefix by one entry adds that entry's candidate unless
      it has the base size. */
  lemma CandidatesStep(icon: Icon, i: nat, base: nat, render: RatioRenderer)
    requires i < |icon|
    ensures Candidates(icon[..i + 1], base, render) ==
      Candidates(icon[..i], base, render) +
        if icon[i].0 == base then [] else [Candidate(icon[i].1, icon[i].0, base, render)]
  {
    assert icon[..i + 1][..i] == icon[..i] && icon[..i + 1][i] == icon[i];
  }

  /** The `srcset` step: a separator is written only when something was
      written before. */
  lemma JoinCandidateStep(done: seq<string>, candidate: string)
    requires forall k :: 0 <= k < |done| ==> done[k] != ""
    ensures Join(", ", done + [candidate]) ==
      (if Join(", ", done) != "" then Join(", ", done) + ", " else "") + candidate
  {
    JoinSnoc(", ", done, candidate);
    if done != [] {
      assert |Join(", ", done)| >= |done[0]| > 0;
    }
  }

  /** The `size_` memo of an image set: `Unset` is the initial `null`;
      `Cached(None)` is the `undefined` an empty mapping leaves behind, which
      is no longer `null` and so is never recomputed either. */
  datatype Memo = Unset | Cached(base: Option<nat>)

  /** An image set over one mapping, with its lazily computed base size. */
  class ImageSet {
    const icon: Icon
    var memo: Memo  // `size_`

    /** A cached base size is the one the mapping determines. */
    ghost predicate Valid()
      reads this
    {
      memo.Cached? ==> memo.base == BaseSize(icon)
    }

    constructor (icon: Icon)
      ensures this.icon == icon && memo == Unset
      ensures Valid()
    {
      this.icon := icon;
      memo := Unset;
    }

    /** `getBaseSize`: on the first call collects the keys, sorts them with
        the default comparator and caches the first; later calls return the
        cached value unchanged. */
    method GetBaseSize() returns (base: Option<nat>)
      requires Valid()
      modifies this
      ensures Valid()
      ensures base == BaseSize(icon) && memo == Cached(base)
      ensures old(memo).Cached? ==> memo == old(memo)
    {
      if memo == Unset {
        var keys: seq<nat> := [];
        var i := 0;
        while i < |icon|
          invariant 0 <= i <= |icon|
          invariant keys == Keys(icon[..i])
        {
          keys := keys + [icon[i].0];
          i := i + 1;
          assert keys == Keys(icon[..i]);
        }
        assert icon[..i] == icon;
        keys := SortKeys(keys);
        memo := Cached(if keys == [] then None else Some(keys[0]));
      }
      base := memo.base;
    }

    /** `getDefaultImage`: the image stored under the base size. */
    method GetDefaultImage() returns (image: Option<string>)
      requires Valid()
      modifies this
      ensures Valid()
      ensures image == DefaultImage(icon) && memo == Cached(BaseSize(icon))
      ensures old(memo).Cached? ==> memo == old(memo)
    {
      var base := GetBaseSize();
      image := if base.Some? then Lookup(icon, base.value) else None;
    }

    /** `getExtraImageSet`: walks the mapping in iteration order and appends
        one candidate per size other than the base, separated by ", ". */
    method GetExtraImageSet(render: RatioRenderer) returns (srcset: string)
      requires Valid()
      modifies this
      ensures Valid()
      ensures srcset == ExtraImageSet(icon, render) && memo == Cached(BaseSize(icon))
      ensures old(memo).Cached? ==> memo == old(memo)
    {
      srcset := "";
      var base := GetBaseSize();
      BaseSizeIsLeastKey(icon);
      ghost var b0 := if base.Some? then base.value else 0;
      var i := 0;
      while i < |icon|
        invariant 0 <= i <= |icon|
        invariant base == BaseSize(icon) && memo == Cached(base)
        invariant srcset == Join(", ", Candidates(icon[..i], b0, render))
      {
        var b := base.value;
        assert b == b0;
        var (size, image) := icon[i];
        ghost var done := Candidates(icon[..i], b, render);
        CandidatesStep(icon, i, b, render);
        if size != b {
          var candidate := image + " " + render(size, b) + "x";
          assert candidate == Candidate(image, size, b, render);
          JoinCandidateStep(done, candidate);
          if srcset != "" {
            srcset := srcset + ", ";
          }
          srcset := srcset + candidate;
          assert Candidates(icon[..i + 1], b, render) == done + [candidate];
          assert srcset == Join(", ", done + [candidate]);
        } else {
          assert done + [] == done;
          assert Candidates(icon[..i + 1], b, render) == done;
        }
        i := i + 1;
      }
      assert icon[..i] == icon;
    }
  }
}
