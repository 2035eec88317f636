/** The order of versions, spelt out: cores by value, then prerelease identifiers, numeric ones by value and before all others. */
module SemverExact {
  import opened Semver

  // ---- what a row of digits is worth ----

  function TenTo(k: nat): nat {
    if k == 0 then 1 else 10 * TenTo(k - 1)
  }

  /** The first digit counts as many tens as digits follow it. */
  lemma {:induction false} FirstDigitCounts(d: Unit, rest: Text)
    requires IsDigit(d) && forall u <- rest :: IsDigit(u)
    ensures Number([d] + rest) == (d as int - 48) * TenTo(|rest|) + Number(rest)
    decreases |rest|
  {
    var text := [d] + rest;
    if rest == [] {
      assert text == [d] && [d][..0] == [];
    } else {
      var front, last := rest[..|rest| - 1], rest[|rest| - 1];
      assert text[..|text| - 1] == [d] + front && text[|text| - 1] == last;
      FirstDigitCounts(d, front);
      TenfoldOf(d as int - 48, TenTo(|front|));
    }
  }

  lemma TenfoldOf(a: int, b: int)
    ensures 10 * (a * b) == a * (10 * b)
  {
  }

  // ---- texts and identifiers ----

  /** At the first difference `a` has the lower unit, or has ended. */
  ghost predicate TextBelowAt(a: Text, b: Text, k: nat) {
    && k <= |a| && k < |b| && a[..k] == b[..k] && (k < |a| ==> a[k] < b[k])
  }

  lemma {:induction false} TextBelowExactly(a: Text, b: Text)
    ensures CompareText(a, b) < 0 <==> exists k: nat :: TextBelowAt(a, b, k)
    decreases |a|
  {
    if a == [] || b == [] {
      assert b != [] ==> TextBelowAt(a, b, 0);
    } else {
      TextBelowExactly(a[1..], b[1..]);
      if a[0] < b[0] {
        assert TextBelowAt(a, b, 0);
      }
      if k: nat :| TextBelowAt(a[1..], b[1..], k) && a[0] == b[0] {
        BelowFurtherOn(a, b, k + 1);
      }
      if k: nat :| TextBelowAt(a, b, k) && k > 0 {
        BelowFurtherOn(a, b, k);
      }
    }
  }

  lemma BelowFurtherOn(a: Text, b: Text, k: nat)
    requires a != [] && b != [] && k > 0
    ensures TextBelowAt(a, b, k) <==> a[0] == b[0] && TextBelowAt(a[1..], b[1..], k - 1)
  {
    if k <= |a| && k < |b| {
      assert a[..k] == [a[0]] + a[1..][..k - 1] && b[..k] == [b[0]] + b[1..][..k - 1];
      assert a[..k] == b[..k] ==> a[..k][0] == b[..k][0] && a[..k][1..] == b[..k][1..];
    }
  }

  predicate AllDigits(p: Text) {
    p != [] && forall u <- p :: 48 <= u <= 57
  }

  /** Digits by value, and before anything else; the others as text. */
  ghost predicate IdBelow(p: Text, q: Text) {
    if AllDigits(p) && AllDigits(q) then Number(p) < Number(q)
    else if AllDigits(p) || AllDigits(q) then AllDigits(p)
    else exists k: nat :: TextBelowAt(p, q, k)
  }

  predicate IdAlike(p: Text, q: Text) {
    p == q || (AllDigits(p) && AllDigits(q) && Number(p) == Number(q))
  }

  lemma IdExactly(p: Text, q: Text)
    ensures CompareId(p, q) < 0 <==> IdBelow(p, q)
    ensures CompareId(p, q) == 0 <==> IdAlike(p, q)
  {
    TextBelowExactly(p, q);
    TextIsATotalOrder(p, q, q);
  }

  /** At the first identifier that is not alike the first list has the lower one, or has run out. */
  ghost predicate IdsBelowAt(x: seq<Text>, y: seq<Text>, k: nat) {
    && k <= |x| && k < |y|
    && (forall i :: 0 <= i < k ==> IdAlike(x[i], y[i]))
    && (k < |x| ==> IdBelow(x[k], y[k]))
  }

  lemma IdsBelowExactly(x: seq<Text>, y: seq<Text>)
    ensures CompareIds(x, y) < 0 <==> exists k: nat :: IdsBelowAt(x, y, k)
  {
    FirstDifferenceDecides(x, y);
    forall k: nat
      ensures LowerAt(x, y, k) <==> IdsBelowAt(x, y, k)
    {
      LowerIsBelow(x, y, k);
    }
  }

  lemma LowerIsBelow(x: seq<Text>, y: seq<Text>, k: nat)
    ensures LowerAt(x, y, k) <==> IdsBelowAt(x, y, k)
  {
    hide CompareId, IdBelow, IdAlike;
    if k <= |x| && k < |y| {
      forall i | 0 <= i <= k && i < |x|
        ensures CompareId(x[i], y[i]) == 0 <==> IdAlike(x[i], y[i])
        ensures CompareId(x[i], y[i]) < 0 <==> IdBelow(x[i], y[i])
      {
        IdExactly(x[i], y[i]);
      }
    }
  }

  // ---- versions ----

  /** Major, then minor, then patch, by value. */
  predicate CoreBelow(v: Version, w: Version)
    requires Legal(v) && Legal(w)
  {
    || Number(v.major) < Number(w.major)
    || (Number(v.major) == Number(w.major) && Number(v.minor) < Number(w.minor))
    || (Number(v.major) == Number(w.major) && Number(v.minor) == Number(w.minor) && Number(v.patch) < Number(w.patch))
  }

  predicate CoreAlike(v: Version, w: Version)
    requires Legal(v) && Legal(w)
  {
    Number(v.major) == Number(w.major) && Number(v.minor) == Number(w.minor) && Number(v.patch) == Number(w.patch)
  }

  lemma CoresExactly(v: Version, w: Version)
    requires Legal(v) && Legal(w)
    ensures CompareNumbers(Numbers(v), Numbers(w)) < 0 <==> CoreBelow(v, w)
    ensures CompareNumbers(Numbers(v), Numbers(w)) == 0 <==> CoreAlike(v, w)
  {
    hide Number;
    CompareThree(Numbers(v), Numbers(w));
  }

  lemma CompareThree(x: seq<nat>, y: seq<nat>)
    requires |x| == |y| == 3
    ensures CompareNumbers(x, y) ==
      if x[0] != y[0] then Sign(x[0] as int - y[0]) else if x[1] != y[1] then Sign(x[1] as int - y[1]) else Sign(x[2] as int - y[2])
  {
    assert CompareNumbers(x[1..][1..][1..], y[1..][1..][1..]) == 0;
    assert CompareNumbers(x[1..][1..], y[1..][1..]) == Sign(x[2] as int - y[2]);
    assert CompareNumbers(x[1..], y[1..]) == if x[1] != y[1] then Sign(x[1] as int - y[1]) else Sign(x[2] as int - y[2]);
  }

  /** A version before its own core's release, or before one of its own prereleases' later ones. */
  ghost predicate PreBelow(p: Option<Text>, q: Option<Text>) {
    p.Some? && (q == None || exists k: nat :: IdsBelowAt(Split(p.value), Split(q.value), k))
  }

  /**
   * One version is below another exactly when its core is lower by value, or the cores are alike and it
   * is a prerelease that the other, a release, outranks, or whose identifiers are lower at the first
   * difference, or run out first.
   */
  lemma BelowExactly(a: Text, b: Text)
    requires Parse(a).Some? && Parse(b).Some?
    ensures Legal(Parse(a).value) && Legal(Parse(b).value)
    ensures var v, w := Parse(a).value, Parse(b).value;
      CompareSemver(a, b) < 0 <==> CoreBelow(v, w) || (CoreAlike(v, w) && PreBelow(v.pre, w.pre))
  {
    hide Parse, Legal, Numbers, CompareNumbers, CompareIds, Split, CoreBelow, CoreAlike, IdsBelowAt;
    ParsedIsLegal(a);
    ParsedIsLegal(b);
    var v, w := Parse(a).value, Parse(b).value;
    CoresExactly(v, w);
    if v.pre.Some? && w.pre.Some? {
      IdsBelowExactly(Split(v.pre.value), Split(w.pre.value));
    }
  }

  /** Other strings, and a version beside one, compare as text. */
  lemma OthersCompareAsText(a: Text, b: Text)
    requires Parse(a) == None || Parse(b) == None
    ensures CompareSemver(a, b) < 0 <==> exists k: nat :: TextBelowAt(a, b, k)
    ensures CompareSemver(a, b) == 0 <==> a == b
  {
    hide Parse;
    TextBelowExactly(a, b);
    TextIsATotalOrder(a, b, b);
  }

  /** What counts as a version: three rows of digits with full stops between, and after a hyphen anything on one line. */
  lemma VersionsExactly(text: Text)
    ensures Parse(text).Some? <==> exists major, minor, patch, tail: Text :: IsVersionText(text, major, minor, patch, tail)
  {
    hide Parse;
    if Parse(text).Some? {
      var v := Parse(text).value;
      ParseInvertsRender(text, v);
      var tail: Text := if v.pre.Some? then [45] + v.pre.value else [];
      assert text == v.major + [46] + v.minor + [46] + v.patch + tail by { RenderedSo(v, tail); }
      LegalIsSo(v, tail);
      assert IsVersionText(text, v.major, v.minor, v.patch, tail);
    }
    forall major, minor, patch, tail: Text | IsVersionText(text, major, minor, patch, tail)
      ensures Parse(text).Some?
    {
      var v := Version(major, minor, patch, if tail == [] then None else Some(tail[1..]));
      assert tail != [] ==> [45] + tail[1..] == tail;
      RenderedSo(v, tail);
      LegalIsSo(v, tail);
      ParseInvertsRender(text, v);
    }
  }

  predicate IsVersionText(text: Text, major: Text, minor: Text, patch: Text, tail: Text) {
    && text == major + [46] + minor + [46] + patch + tail && AllDigits(major) && AllDigits(minor) && AllDigits(patch)
    && IsTail(tail)
  }

  predicate IsTail(tail: Text) {
    tail == [] || (|tail| > 1 && tail[0] == 45 && forall i :: 1 <= i < |tail| ==> tail[i] !in {10, 13, 0x2028, 0x2029})
  }

  lemma LegalIsSo(v: Version, tail: Text)
    requires tail == (if v.pre.Some? then [45] + v.pre.value else [])
    ensures Legal(v) <==> AllDigits(v.major) && AllDigits(v.minor) && AllDigits(v.patch) && IsTail(tail) && (v.pre.Some? ==> |tail| > 1)
  {
    if v.pre.Some? {
      var text := v.pre.value;
      if IsPrerelease(text) {
        forall i | 1 <= i < |tail|
          ensures tail[i] !in {10, 13, 0x2028, 0x2029}
        {
          assert tail[i] == text[i - 1] && text[i - 1] in text;
        }
        assert IsTail(tail);
      }
      if IsTail(tail) && |tail| > 1 {
        forall u <- text
          ensures !IsLineEnd(u)
        {
          var j :| 0 <= j < |text| && text[j] == u;
          assert tail[j + 1] == u;
        }
        assert IsPrerelease(text);
      }
    }
  }

  lemma RenderedSo(v: Version, tail: Text)
    requires tail == (if v.pre.Some? then [45] + v.pre.value else [])
    ensures Render(v) == v.major + [46] + v.minor + [46] + v.patch + tail
  {
  }
}
