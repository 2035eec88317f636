/** Ordering of installed versions: the semantic-version comparison and the strings it accepts. */
module Semver {

  datatype Option<+T> = None | Some(value: T)

  /** Strings are sequences of 16-bit code units, as the platform compares them. */
  type Unit = u: int | 0 <= u < 0x1_0000

  type Text = seq<Unit>

  const DOT: Unit := 46
  const HYPHEN: Unit := 45

  predicate IsDigit(u: Unit) {
    48 <= u <= 57
  }

  predicate IsLineEnd(u: Unit) {
    u == 10 || u == 13 || u == 0x2028 || u == 0x2029
  }

  predicate IsNumeric(text: Text) {
    text != [] && forall u <- text :: IsDigit(u)
  }

  function Number(digits: Text): nat
    requires forall u <- digits :: IsDigit(u)
    decreases |digits|
  {
    if digits == [] then 0
    else
      assert IsDigit(digits[|digits| - 1]);
      10 * Number(digits[..|digits| - 1]) + (digits[|digits| - 1] as int - 48)
  }

  // ---- parsing ----

  datatype Version = Version(major: Text, minor: Text, patch: Text, pre: Option<Text>)

  function LeadingDigits(text: Text): (n: nat)
    ensures n <= |text| && (forall u <- text[..n] :: IsDigit(u)) && (n < |text| ==> !IsDigit(text[n]))
    decreases |text|
  {
    if text == [] || !IsDigit(text[0]) then 0
    else
      var n := LeadingDigits(text[1..]);
      assert text[..n + 1] == [text[0]] + text[1..][..n];
      n + 1
  }

  /** A run of digits and the dot after it, then the rest. */
  function DottedNumber(text: Text): (r: Option<(Text, Text)>)
    ensures r.Some? ==> IsNumeric(r.value.0) && text == r.value.0 + [DOT] + r.value.1
  {
    var n := LeadingDigits(text);
    if n == 0 || n == |text| || text[n] != DOT then None
    else Some((text[..n], text[n + 1..]))
  }

  predicate IsPrerelease(text: Text) {
    text != [] && forall u <- text :: !IsLineEnd(u)
  }

  function ParseTail(major: Text, minor: Text, text: Text): Option<Version> {
    var n := LeadingDigits(text);
    if n == 0 then None
    else if n == |text| then Some(Version(major, minor, text, None))
    else if text[n] == HYPHEN && IsPrerelease(text[n + 1..]) then
      Some(Version(major, minor, text[..n], Some(text[n + 1..])))
    else None
  }

  function Parse(text: Text): Option<Version> {
    match DottedNumber(text)
    case None => None
    case Some((major, rest)) =>
      match DottedNumber(rest)
      case None => None
      case Some((minor, tail)) => ParseTail(major, minor, tail)
  }

  predicate Legal(v: Version) {
    IsNumeric(v.major) && IsNumeric(v.minor) && IsNumeric(v.patch) && (v.pre.Some? ==> IsPrerelease(v.pre.value))
  }

  function Render(v: Version): Text {
    v.major + [DOT] + (v.minor + [DOT] + (v.patch + if v.pre.Some? then [HYPHEN] + v.pre.value else []))
  }

  lemma {:induction false} DigitsThen(digits: Text, rest: Text)
    requires forall u <- digits :: IsDigit(u)
    requires rest == [] || !IsDigit(rest[0])
    ensures LeadingDigits(digits + rest) == |digits|
    ensures (digits + rest)[..|digits|] == digits && (digits + rest)[|digits|..] == rest
    decreases |digits|
  {
    if digits == [] {
      assert digits + rest == rest;
    } else {
      assert (digits + rest)[1..] == digits[1..] + rest;
      DigitsThen(digits[1..], rest);
    }
  }

  lemma DottedNumberReads(digits: Text, rest: Text)
    requires IsNumeric(digits)
    ensures DottedNumber(digits + [DOT] + rest) == Some((digits, rest))
  {
    assert digits + [DOT] + rest == digits + ([DOT] + rest);
    DigitsThen(digits, [DOT] + rest);
    var text := digits + ([DOT] + rest);
    assert text[|digits|..][1..] == rest && text[|digits|..][1..] == text[|digits| + 1..];
  }

  lemma TailReads(v: Version)
    requires Legal(v)
    ensures ParseTail(v.major, v.minor, v.patch + if v.pre.Some? then [HYPHEN] + v.pre.value else []) == Some(v)
  {
    var rest := if v.pre.Some? then [HYPHEN] + v.pre.value else [];
    DigitsThen(v.patch, rest);
    assert v.patch + [] == v.patch;
    if v.pre.Some? {
      var text := v.patch + rest;
      assert text[|v.patch|..][1..] == v.pre.value && text[|v.patch|..][1..] == text[|v.patch| + 1..];
    }
  }

  lemma TailRenders(major: Text, minor: Text, text: Text)
    requires IsNumeric(major) && IsNumeric(minor) && ParseTail(major, minor, text).Some?
    ensures var v := ParseTail(major, minor, text).value;
      && Legal(v) && v.major == major && v.minor == minor
      && text == v.patch + if v.pre.Some? then [HYPHEN] + v.pre.value else []
  {
    var n := LeadingDigits(text);
    assert text[..n] + [] == text[..n] && text == text[..n] + text[n..];
    if n < |text| {
      assert text[n..] == [text[n]] + text[n + 1..];
    }
  }

  /** Parsing accepts exactly the renderings of legal versions, and gives back the version rendered. */
  lemma ParseInvertsRender(text: Text, v: Version)
    ensures Parse(text) == Some(v) <==> Legal(v) && Render(v) == text
  {
    hide LeadingDigits(), ParseTail(), DottedNumber();
    if Legal(v) {
      var tail := v.patch + if v.pre.Some? then [HYPHEN] + v.pre.value else [];
      DottedNumberReads(v.major, v.minor + [DOT] + tail);
      DottedNumberReads(v.minor, tail);
      TailReads(v);
    }
    match DottedNumber(text)
    case None =>
    case Some((major, rest)) =>
      match DottedNumber(rest)
      case None =>
      case Some((minor, tail)) =>
        if ParseTail(major, minor, tail).Some? {
          TailRenders(major, minor, tail);
        }
  }

  // ---- comparing ----

  function Sign(d: int): int {
    if d < 0 then -1 else if d > 0 then 1 else 0
  }

  /** The platform's order on strings. */
  function CompareText(a: Text, b: Text): (r: int)
    ensures -1 <= r <= 1
    decreases |a|
  {
    if a == [] then (if b == [] then 0 else -1)
    else if b == [] then 1
    else if a[0] != b[0] then (if a[0] < b[0] then -1 else 1)
    else CompareText(a[1..], b[1..])
  }

  function Split(text: Text): (ids: seq<Text>)
    ensures ids != []
    decreases |text|
  {
    if text == [] then [[]]
    else
      var ids := Split(text[1..]);
      if text[0] == DOT then [[]] + ids else [[text[0]] + ids[0]] + ids[1..]
  }

  function Join(ids: seq<Text>): Text
    requires ids != []
  {
    if |ids| == 1 then ids[0] else ids[0] + [DOT] + Join(ids[1..])
  }

  /** Splitting at the dots and joining again is the identity, and no identifier holds a dot. */
  lemma {:induction false} SplitsAtEveryDot(text: Text)
    ensures Join(Split(text)) == text && forall id <- Split(text) :: DOT !in id
    decreases |text|
  {
    if text != [] {
      SplitsAtEveryDot(text[1..]);
      var ids := Split(text[1..]);
      assert text == [text[0]] + text[1..];
      if text[0] == DOT {
        assert Split(text)[1..] == ids;
      } else {
        assert Split(text)[1..] == ids[1..];
        if |ids| > 1 {
          assert Join(Split(text)) == [text[0]] + (ids[0] + [DOT] + Join(ids[1..]));
        }
      }
    }
  }

  function CompareId(p: Text, q: Text): int {
    if IsNumeric(p) && IsNumeric(q) then Sign(Number(p) - Number(q))
    else if IsNumeric(p) then -1
    else if IsNumeric(q) then 1
    else CompareText(p, q)
  }

  /** Identifier by identifier; when one list is a prefix of the other, it is the lesser. */
  function CompareIds(x: seq<Text>, y: seq<Text>): int
    decreases |x|
  {
    if x == [] then (if y == [] then 0 else -1)
    else if y == [] then 1
    else
      var first := CompareId(x[0], y[0]);
      if first != 0 then first else CompareIds(x[1..], y[1..])
  }

  function ComparePre(p: Option<Text>, q: Option<Text>): int {
    if p == None && q == None then 0
    else if p == None then 1
    else if q == None then -1
    else CompareIds(Split(p.value), Split(q.value))
  }

  function Numbers(v: Version): seq<nat>
    requires Legal(v)
  {
    [Number(v.major), Number(v.minor), Number(v.patch)]
  }

  function CompareNumbers(x: seq<nat>, y: seq<nat>): int
    requires |x| == |y|
    decreases |x|
  {
    if x == [] then 0 else if x[0] != y[0] then Sign(x[0] as int - y[0]) else CompareNumbers(x[1..], y[1..])
  }

  function CompareVersions(v: Version, w: Version): int
    requires Legal(v) && Legal(w)
  {
    var cores := CompareNumbers(Numbers(v), Numbers(w));
    if cores != 0 then cores else ComparePre(v.pre, w.pre)
  }

  lemma ParsedIsLegal(text: Text)
    ensures Parse(text).Some? ==> Legal(Parse(text).value)
  {
    if Parse(text).Some? {
      ParseInvertsRender(text, Parse(text).value);
    }
  }

  function CompareSemver(a: Text, b: Text): int {
    ParsedIsLegal(a);
    ParsedIsLegal(b);
    if Parse(a).Some? && Parse(b).Some? then CompareVersions(Parse(a).value, Parse(b).value) else CompareText(a, b)
  }

  // ---- a total preorder ----

  lemma {:induction false} TextIsATotalOrder(a: Text, b: Text, c: Text)
    ensures CompareText(a, b) == -CompareText(b, a)
    ensures CompareText(a, b) == 0 <==> a == b
    ensures CompareText(a, b) <= 0 && CompareText(b, c) <= 0 ==> CompareText(a, c) <= 0
    decreases |a| + |b| + |c|
  {
    if a != [] && b != [] {
      TextIsATotalOrder(a[1..], b[1..], if c == [] then [] else c[1..]);
      assert a[1..] == b[1..] && a[0] == b[0] ==> a == [a[0]] + a[1..] == b;
    }
  }

  lemma IdIsATotalPreorder(p: Text, q: Text, r: Text)
    ensures CompareId(p, q) == -CompareId(q, p)
    ensures CompareId(p, q) == 0 <==> p == q || (IsNumeric(p) && IsNumeric(q) && Number(p) == Number(q))
    ensures CompareId(p, q) <= 0 && CompareId(q, r) <= 0 ==> CompareId(p, r) <= 0
    ensures CompareId(p, q) == 0 ==> CompareId(p, r) == CompareId(q, r)
    ensures CompareId(q, r) == 0 ==> CompareId(p, q) == CompareId(p, r)
  {
    hide CompareText(), Number();
    TextIsATotalOrder(p, q, r);
    TextIsATotalOrder(q, r, p);
  }

  /** Two prereleases agree when their identifiers do, one by one. */
  ghost predicate SameIds(x: seq<Text>, y: seq<Text>) {
    |x| == |y| && forall i :: 0 <= i < |x| ==> CompareId(x[i], y[i]) == 0
  }

  lemma {:induction false} IdsAreATotalPreorder(x: seq<Text>, y: seq<Text>, z: seq<Text>)
    ensures CompareIds(x, y) == -CompareIds(y, x)
    ensures CompareIds(x, y) == 0 <==> SameIds(x, y)
    ensures CompareIds(x, y) <= 0 && CompareIds(y, z) <= 0 ==> CompareIds(x, z) <= 0
    decreases |x|
  {
    hide CompareId();
    if x != [] && y != [] {
      IdsAreATotalPreorder(x[1..], y[1..], if z == [] then [] else z[1..]);
      IdIsATotalPreorder(x[0], y[0], if z == [] then [] else z[0]);
      if z != [] {
        IdIsATotalPreorder(x[0], z[0], y[0]);
        IdIsATotalPreorder(y[0], z[0], x[0]);
      }
      SameIdsSplit(x, y);
    }
  }

  lemma SameIdsSplit(x: seq<Text>, y: seq<Text>)
    requires x != [] && y != []
    ensures SameIds(x, y) <==> CompareId(x[0], y[0]) == 0 && SameIds(x[1..], y[1..])
  {
    hide CompareId();
    if CompareId(x[0], y[0]) == 0 && SameIds(x[1..], y[1..]) {
      forall i | 0 <= i < |x|
        ensures CompareId(x[i], y[i]) == 0
      {
        if i > 0 {
          assert x[i] == x[1..][i - 1] && y[i] == y[1..][i - 1];
        }
      }
    }
  }

  lemma {:induction false} NumbersAreATotalOrder(x: seq<nat>, y: seq<nat>, z: seq<nat>)
    requires |x| == |y| == |z|
    ensures CompareNumbers(x, y) == -CompareNumbers(y, x)
    ensures CompareNumbers(x, y) == 0 <==> x == y
    ensures CompareNumbers(x, y) <= 0 && CompareNumbers(y, z) <= 0 ==> CompareNumbers(x, z) <= 0
    decreases |x|
  {
    if x != [] {
      NumbersAreATotalOrder(x[1..], y[1..], z[1..]);
      assert x == [x[0]] + x[1..] && y == [y[0]] + y[1..];
    }
  }

  ghost predicate SamePre(p: Option<Text>, q: Option<Text>) {
    if p.Some? && q.Some? then SameIds(Split(p.value), Split(q.value)) else p == q
  }

  lemma PreIsATotalPreorder(p: Option<Text>, q: Option<Text>, r: Option<Text>)
    ensures ComparePre(p, q) == -ComparePre(q, p)
    ensures ComparePre(p, q) == 0 <==> SamePre(p, q)
    ensures ComparePre(p, q) <= 0 && ComparePre(q, r) <= 0 ==> ComparePre(p, r) <= 0
  {
    hide CompareIds(), Split(), SameIds();
    if p.Some? && q.Some? {
      IdsAreATotalPreorder(Split(p.value), Split(q.value), if r.Some? then Split(r.value) else []);
    }
  }

  lemma VersionsAreATotalPreorder(u: Version, v: Version, w: Version)
    requires Legal(u) && Legal(v) && Legal(w)
    ensures CompareVersions(u, v) == -CompareVersions(v, u)
    ensures CompareVersions(u, v) == 0 <==> Numbers(u) == Numbers(v) && SamePre(u.pre, v.pre)
    ensures CompareVersions(u, v) <= 0 && CompareVersions(v, w) <= 0 ==> CompareVersions(u, w) <= 0
  {
    hide CompareNumbers(), ComparePre(), Numbers(), Legal(), SamePre();
    assert |Numbers(u)| == |Numbers(v)| == |Numbers(w)| by { ThreeNumbers(u); ThreeNumbers(v); ThreeNumbers(w); }
    NumbersAreATotalOrder(Numbers(u), Numbers(v), Numbers(w));
    NumbersAreATotalOrder(Numbers(u), Numbers(w), Numbers(v));
    NumbersAreATotalOrder(Numbers(v), Numbers(w), Numbers(u));
    PreIsATotalPreorder(u.pre, v.pre, w.pre);
  }

  lemma ThreeNumbers(v: Version)
    requires Legal(v)
    ensures |Numbers(v)| == 3
  {
  }

  /**
   * On the strings its pattern accepts the comparison is a total preorder, and equal exactly when the
   * cores are numerically equal and the prerelease identifiers agree one by one.
   */
  lemma OrderOnVersions(a: Text, b: Text, c: Text)
    requires Parse(a).Some? && Parse(b).Some? && Parse(c).Some?
    ensures CompareSemver(a, b) == -CompareSemver(b, a)
    ensures CompareSemver(a, b) <= 0 && CompareSemver(b, c) <= 0 ==> CompareSemver(a, c) <= 0
    ensures Legal(Parse(a).value) && Legal(Parse(b).value)
    ensures CompareSemver(a, b) == 0 <==>
      Numbers(Parse(a).value) == Numbers(Parse(b).value) && SamePre(Parse(a).value.pre, Parse(b).value.pre)
  {
    hide CompareVersions(), Parse(), Legal(), Numbers(), SamePre();
    ParsedIsLegal(a);
    ParsedIsLegal(b);
    ParsedIsLegal(c);
    VersionsAreATotalPreorder(Parse(a).value, Parse(b).value, Parse(c).value);
  }

  /** A release outranks every prerelease of the same core, and nothing of a lower core outranks it. */
  lemma ReleaseOutranksItsPrereleases(release: Version, v: Version)
    requires Legal(release) && Legal(v) && release.pre == None
    ensures CompareSemver(Render(v), Render(release)) < 0 <==>
      CompareNumbers(Numbers(v), Numbers(release)) < 0
      || (Numbers(v) == Numbers(release) && v.pre.Some?)
  {
    hide CompareNumbers(), Legal(), Numbers(), Parse(), Render();
    ParseInvertsRender(Render(v), v);
    ParseInvertsRender(Render(release), release);
    ThreeNumbers(v);
    ThreeNumbers(release);
    NumbersAreATotalOrder(Numbers(v), Numbers(release), Numbers(v));
  }

  /** The lists agree below `k`, where the first ends or has the lower identifier. */
  ghost predicate LowerAt(x: seq<Text>, y: seq<Text>, k: nat) {
    && k <= |x| && k < |y|
    && (forall i :: 0 <= i < k ==> CompareId(x[i], y[i]) == 0)
    && (k < |x| ==> CompareId(x[k], y[k]) < 0)
  }

  lemma {:induction false} FirstDifferenceDecides(x: seq<Text>, y: seq<Text>)
    ensures CompareIds(x, y) < 0 <==> exists k: nat :: LowerAt(x, y, k)
    decreases |x|
  {
    hide CompareId();
    if x == [] || y == [] {
      assert y != [] ==> LowerAt(x, y, 0);
    } else {
      FirstDifferenceDecides(x[1..], y[1..]);
      if CompareId(x[0], y[0]) < 0 {
        assert LowerAt(x, y, 0);
      }
      if k: nat :| LowerAt(x[1..], y[1..], k) && CompareId(x[0], y[0]) == 0 {
        LowerLater(x, y, k + 1);
      }
      if k: nat :| LowerAt(x, y, k) && k > 0 {
        LowerLater(x, y, k);
      }
    }
  }

  lemma LowerLater(x: seq<Text>, y: seq<Text>, k: nat)
    requires x != [] && y != [] && k > 0
    ensures LowerAt(x, y, k) <==> CompareId(x[0], y[0]) == 0 && LowerAt(x[1..], y[1..], k - 1)
  {
    hide CompareId();
    if CompareId(x[0], y[0]) == 0 && LowerAt(x[1..], y[1..], k - 1) {
      forall i | 0 <= i < k
        ensures CompareId(x[i], y[i]) == 0
      {
        if i > 0 {
          assert x[i] == x[1..][i - 1] && y[i] == y[1..][i - 1];
        }
      }
    }
    if LowerAt(x, y, k) {
      forall i | 0 <= i < k - 1
        ensures CompareId(x[1..][i], y[1..][i]) == 0
      {
        assert x[1..][i] == x[i + 1] && y[1..][i] == y[i + 1];
      }
    }
  }

  /** The comparison, as two index loops with early returns. */
  method Compare(a: Text, b: Text) returns (r: int)
    ensures r == CompareSemver(a, b)
  {
    hide CompareText(), CompareId(), Number(), Parse();
    var pa, pb := Parse(a), Parse(b);
    ParsedIsLegal(a);
    ParsedIsLegal(b);
    if pa == None || pb == None {
      return CompareText(a, b);
    }
    var x, y := Numbers(pa.value), Numbers(pb.value);
    var i := 0;
    while i < 3
      invariant 0 <= i <= 3
      invariant CompareNumbers(x, y) == CompareNumbers(x[i..], y[i..])
    {
      if x[i] != y[i] {
        return if x[i] < y[i] then -1 else 1;
      }
      i := i + 1;
    }
    if pa.value.pre == None && pb.value.pre == None {
      return 0;
    }
    if pa.value.pre == None {
      return 1;
    }
    if pb.value.pre == None {
      return -1;
    }
    r := ComparePrerelease(Split(pa.value.pre.value), Split(pb.value.pre.value));
  }

  method ComparePrerelease(x: seq<Text>, y: seq<Text>) returns (r: int)
    ensures r == CompareIds(x, y)
  {
    hide CompareText(), Number();
    var i := 0;
    while i < |x| || i < |y|
      invariant 0 <= i <= |x| && i <= |y|
      invariant CompareIds(x, y) == CompareIds(x[i..], y[i..])
      decreases |x| - i
    {
      if i == |x| {
        return -1;
      }
      if i == |y| {
        return 1;
      }
      assert x[i..][1..] == x[i + 1..] && y[i..][1..] == y[i + 1..];
      if IsNumeric(x[i]) && IsNumeric(y[i]) {
        var d: int := Number(x[i]) - Number(y[i]);
        if d != 0 {
          return if d < 0 then -1 else 1;
        }
      } else if IsNumeric(x[i]) {
        return -1;
      } else if IsNumeric(y[i]) {
        return 1;
      } else if x[i] != y[i] {
        TextIsATotalOrder(x[i], y[i], []);
        return if CompareText(x[i], y[i]) < 0 then -1 else 1;
      } else {
        TextIsATotalOrder(x[i], y[i], []);
      }
      i := i + 1;
    }
    return 0;
  }

  /** Strings the pattern rejects are still ordered, as long as at most one of those compared is a version. */
  lemma OrderOnOtherStrings(a: Text, b: Text, c: Text)
    requires (Parse(a) == None && (Parse(b) == None || Parse(c) == None)) || (Parse(b) == None && Parse(c) == None)
    ensures CompareSemver(a, b) == -CompareSemver(b, a)
    ensures CompareSemver(a, b) <= 0 && CompareSemver(b, c) <= 0 ==> CompareSemver(a, c) <= 0
  {
    TextIsATotalOrder(a, b, c);
  }

  /** However the three are taken, "not above" passes from one to the next. */
  predicate Ordered(p: Text, q: Text, r: Text) {
    Passes(p, q, r) && Passes(p, r, q) && Passes(q, p, r) && Passes(q, r, p) && Passes(r, p, q) && Passes(r, q, p)
  }

  predicate Passes(p: Text, q: Text, r: Text) {
    CompareSemver(p, q) <= 0 && CompareSemver(q, r) <= 0 ==> CompareSemver(p, r) <= 0
  }

  /** Whenever `x` stands between the two as plain text, the versions are strictly in that order. */
  predicate BetweenAgrees(a: Text, b: Text, x: Text) {
    CompareText(a, x) < 0 && CompareText(x, b) < 0 ==> CompareSemver(a, b) < 0
  }

  /** Two versions and another string are ordered exactly when the string never separates them against their own order. */
  lemma MixedStringsOrderedExactly(v: Text, w: Text, x: Text)
    requires Parse(v).Some? && Parse(w).Some? && Parse(x) == None
    ensures Ordered(v, w, x) <==> BetweenAgrees(v, w, x) && BetweenAgrees(w, v, x)
  {
    hide Parse, CompareText, CompareVersions;
    OrderOnVersions(v, w, w);
    TextIsATotalOrder(v, x, w);
    TextIsATotalOrder(w, x, v);
    TextIsATotalOrder(x, v, w);
    TextIsATotalOrder(x, w, v);
  }

  const NINE: Text := [57, 46, 48, 46, 48]
  const TEN: Text := [49, 48, 46, 48, 46, 48]
  const FIVE: Text := [53]

  lemma NineBeforeTen()
    ensures CompareSemver(NINE, TEN) < 0
  {
    hide Parse();
    var v, w := Version([57], [48], [48], None), Version([49, 48], [48], [48], None);
    assert Render(v) == NINE && Render(w) == TEN;
    ParseInvertsRender(NINE, v);
    ParseInvertsRender(TEN, w);
    assert Number([57]) == 9 && Number([49]) == 1;
    assert [49, 48][..1] == [49];
    assert Number([49, 48]) == 10;
  }

  lemma FiveIsNoVersion()
    ensures Parse(FIVE) == None
  {
    hide ParseTail();
    DigitsThen(FIVE, []);
    assert FIVE + [] == FIVE;
  }

  /** Two versions and another string need not be ordered: 9.0.0, 10.0.0 and 5 each precede the next. */
  lemma MixedStringsCanCycle()
    ensures CompareSemver(NINE, TEN) < 0 && CompareSemver(TEN, FIVE) < 0 && CompareSemver(FIVE, NINE) < 0
  {
    hide Parse();
    NineBeforeTen();
    FiveIsNoVersion();
  }
}
