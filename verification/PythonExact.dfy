/** The normal form of a version among its spellings, and what the release rules make of each version. */
module PythonExact {
  import opened PythonVersion
  import opened PythonSpelling

  // ---- numbers ----

  function TenTo(k: nat): nat {
    if k == 0 then 1 else 10 * TenTo(k - 1)
  }

  /** The first digit counts as many tens as digits follow it. */
  lemma {:induction false} FirstDigitCounts(d: char, rest: string)
    requires IsDigit(d) && forall c <- rest :: IsDigit(c)
    ensures Number([d] + rest) == (d as int - '0' as int) * TenTo(|rest|) + Number(rest)
    decreases |rest|
  {
    var text := [d] + rest;
    if rest == "" {
      assert text == [d] && [d][..0] == "";
    } else {
      var front, last := rest[..|rest| - 1], rest[|rest| - 1];
      assert text[..|text| - 1] == [d] + front && text[|text| - 1] == last;
      FirstDigitCounts(d, front);
      TenfoldOf(d as int - '0' as int, TenTo(|front|));
    }
  }

  lemma TenfoldOf(a: int, b: int)
    ensures 10 * (a * b) == a * (10 * b)
  {
  }

  /** A number is written without leading zeros. */
  lemma {:induction false} DecimalIsShortest(n: nat)
    ensures Decimal(n) == "0" || Decimal(n)[0] != '0'
  {
    if n >= 10 {
      DecimalIsShortest(n / 10);
      NumberOfDecimal(n / 10);
      assert Number("0") == 0 by { ZeroIsNothing(); }
    }
  }

  lemma ZeroIsNothing()
    ensures Number("0") == 0
  {
    assert "0"[..0] == "";
  }

  // ---- characters ----

  /** The characters by their codes: digits; digits and small letters; hyphen, full stop and underscore; white
      space; and capitals, which are read as the small letters 32 further on. */
  lemma CharactersExactly(c: char)
    ensures IsDigit(c) <==> 48 <= c as int <= 57
    ensures IsAlnum(c) <==> 48 <= c as int <= 57 || 97 <= c as int <= 122
    ensures IsSeparator(c) <==> c as int in {45, 46, 95}
    ensures IsSpace(c) <==> c as int in {9, 10, 11, 12, 13, 28, 29, 30, 31, 32}
    ensures LowerChar(c) as int == if 65 <= c as int <= 90 then c as int + 32 else c as int
  {
  }

  // ---- the normal form among the spellings ----

  function Decimals(numbers: seq<nat>): (parts: seq<string>)
    ensures |parts| == |numbers|
    ensures forall i :: 0 <= i < |parts| ==> parts[i] == Decimal(numbers[i])
  {
    seq(|numbers|, i requires 0 <= i < |numbers| => Decimal(numbers[i]))
  }

  function Dotted(segments: seq<string>): (more: seq<Further>)
    ensures |more| == |segments|
    ensures forall i :: 0 <= i < |more| ==> more[i] == Further('.', segments[i])
  {
    seq(|segments|, i requires 0 <= i < |segments| => Further('.', segments[i]))
  }

  /**
   * The spelling chosen: nothing around it, no `v`, no zero epoch, the short labels `a`, `b` and `rc`
   * joined to their numbers, `.post` and `.dev` with theirs, and full stops in the local part.
   */
  function NormalSpelling(v: Version): Spelling
    requires v.release != [] && (v.local.Some? ==> v.local.value != [])
  {
    Spelling(
      "", false,
      if v.epoch == 0 then None else Some(Decimal(v.epoch)),
      Decimal(v.release[0]), Decimals(v.release[1..]),
      if v.pre == None then None
      else Some(Marked("", match v.pre.value.mark case Alpha => "a" case Beta => "b" case Candidate => "rc",
                       "", Decimal(v.pre.value.number))),
      if v.post == None then None else Some(Worded(Marked(".", "post", "", Decimal(v.post.value)))),
      if v.dev == None then None else Some(Marked(".", "dev", "", Decimal(v.dev.value))),
      if v.local == None then None else Some(LocalSpelling(v.local.value[0], Dotted(v.local.value[1..]))),
      "")
  }

  lemma {:induction false} PartsAreDotted(numbers: seq<nat>)
    ensures PartsText(Decimals(numbers)) == DottedMore(numbers)
    decreases |numbers|
  {
    hide Decimal;
    if numbers != [] {
      PartsAreDotted(numbers[1..]);
      assert Decimals(numbers)[1..] == Decimals(numbers[1..]);
    }
  }

  lemma {:induction false} FurtherAreDotted(segments: seq<string>)
    ensures FurtherText(Dotted(segments)) == LocalMore(segments)
    decreases |segments|
  {
    if segments != [] {
      FurtherAreDotted(segments[1..]);
      assert Dotted(segments)[1..] == Dotted(segments[1..]);
    }
  }

  lemma MarkIsPlain(lead: string, word: string, digits: string)
    ensures MarkedText(Some(Marked(lead, word, "", digits))) == (lead + word) + digits
  {
  }

  lemma TailSpelt(v: Version)
    requires Legal(v)
    ensures AfterReleaseText(NormalSpelling(v)) == TailText(v)
  {
    hide Decimal, MarkedText, FurtherText, LocalMore, IsSegment;
    var s := NormalSpelling(v);
    if v.pre.Some? {
      MarkIsPlain("", s.pre.value.word, Decimal(v.pre.value.number));
      assert "" + s.pre.value.word == s.pre.value.word;
    }
    assert MarkedText(s.pre) == PreText(v.pre) by { NoMark(""); }
    if v.post.Some? {
      MarkIsPlain(".", "post", Decimal(v.post.value));
      assert "." + "post" == ".post";
    }
    assert PostSpelt(s.post) == PostText(v.post);
    if v.dev.Some? {
      MarkIsPlain(".", "dev", Decimal(v.dev.value));
      assert "." + "dev" == ".dev";
    }
    assert MarkedText(s.dev) == DevText(v.dev) by { NoMark(""); }
    if v.local.Some? {
      FurtherAreDotted(v.local.value[1..]);
    }
    assert LocalSpelt(s.local) == LocalText(v.local);
    assert LocalText(v.local) + "" == LocalText(v.local);
  }

  /** The normal form of a version is its normal spelling. */
  lemma CanonicalIsTheNormalSpelling(v: Version)
    requires Legal(v)
    ensures Canonical(v) == Spelt(NormalSpelling(v))
  {
    hide Decimal, AfterReleaseText, TailText, PartsText, DottedMore, IsSegment;
    var s := NormalSpelling(v);
    TailSpelt(v);
    PartsAreDotted(v.release[1..]);
    var numbers := NumbersText(s);
    assert numbers == EpochText(v.epoch) + (Decimal(v.release[0]) + (DottedMore(v.release[1..]) + TailText(v)));
    assert "" + ("" + numbers) == numbers;
  }

  // ---- what the release rules make of a version ----

  /** `X.Y.Z`, or `X.Y.ZbN`, without leading zeros. */
  ghost predicate InScheme(version: string, s: Scheme) {
    version == Decimal(s.major) + "." + Decimal(s.minor) + "." + Decimal(s.patch)
               + (if s.BetaLine? then "b" + Decimal(s.beta) else "")
  }

  lemma InSchemeIsItsText(version: string, s: Scheme)
    ensures InScheme(version, s) <==> version == SchemeText(s)
  {
    hide Decimal;
    var tail := SchemeTail(s);
    assert Decimal(s.major) + "." + Decimal(s.minor) + "." + Decimal(s.patch) + tail
        == Decimal(s.major) + ("." + (Decimal(s.minor) + ("." + (Decimal(s.patch) + tail))));
  }

  /**
   * Every string, exactly: no version, a version that is not in its normal form, a beta followed by the
   * next beta, a stable version followed by the first beta of the next patch, or another version, with
   * nothing proposed to follow it.
   */
  lemma ClassifiedExactly(version: string)
    ensures Classify(version) == Err(NotAVersion) <==> Parse(version) == None
    ensures Classify(version) == Err(NotCanonical) <==> Parse(version).Some? && NormalForm(version) != Some(version)
    ensures Parse(version).Some? && NormalForm(version) == Some(version) ==>
      && (forall s :: InScheme(version, s) ==>
            && Classify(version).Ok?
            && Classify(version).value.0 == (if s.BetaLine? then BetaRelease else StableRelease)
            && InScheme(Classify(version).value.1,
                        if s.BetaLine? then BetaLine(s.major, s.minor, s.patch, s.beta + 1)
                        else BetaLine(s.major, s.minor, s.patch + 1, 0)))
      && ((forall s :: !InScheme(version, s)) ==> Classify(version) == Ok((OtherRelease, "")))
  {
    hide Parse, MatchScheme, SchemeText, InScheme, Canonical, Legal, VersionOf;
    ParseIsLegal(version);
    forall s | InScheme(version, s)
      ensures Classify(version) == Ok((if s.BetaLine? then BetaRelease else StableRelease, SchemeText(Successor(s))))
    {
      InSchemeIsItsText(version, s);
      EverySchemeVersionAdvances(s);
    }
    forall s: Scheme
      ensures InScheme(SchemeText(s), s)
    {
      InSchemeIsItsText(SchemeText(s), s);
    }
    if Parse(version).Some? && NormalForm(version) == Some(version) && MatchScheme(version).Some? {
      var s := MatchScheme(version).value;
      MatchedSchemeParses(version);
      SchemeTextIsCanonical(s);
      InSchemeIsItsText(version, s);
    }
  }
}
