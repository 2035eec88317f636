/** PEP 440 versions: the spellings accepted, their normal form, the release scheme, and the version file. */
module PythonVersion {

  datatype Option<+T> = None | Some(value: T)

  // ---- characters and numbers ----

  predicate IsDigit(c: char) {
    '0' <= c <= '9'
  }

  predicate IsAlnum(c: char) {
    IsDigit(c) || 'a' <= c <= 'z'
  }

  predicate IsSeparator(c: char) {
    c == '-' || c == '_' || c == '.'
  }

  predicate IsSpace(c: char) {
    9 as char <= c <= 13 as char || 28 as char <= c <= 32 as char
  }

  function LowerChar(c: char): char {
    if 'A' <= c <= 'Z' then c - 'A' + 'a' else c
  }

  function Lower(text: string): (lower: string)
    ensures |lower| == |text|
  {
    seq(|text|, i requires 0 <= i < |text| => LowerChar(text[i]))
  }

  predicate IsNumeral(text: string) {
    text != "" && forall c <- text :: IsDigit(c)
  }

  function Number(digits: string): nat
    requires forall c <- digits :: IsDigit(c)
    decreases |digits|
  {
    if digits == "" then 0
    else
      assert IsDigit(digits[|digits| - 1]);
      10 * Number(digits[..|digits| - 1]) + (digits[|digits| - 1] as int - '0' as int)
  }

  function Digit(n: nat): (c: char)
    requires n < 10
    ensures IsDigit(c) && c as int - '0' as int == n
  {
    "0123456789"[n]
  }

  function Decimal(n: nat): (text: string)
    ensures IsNumeral(text)
  {
    if n < 10 then [Digit(n)] else Decimal(n / 10) + [Digit(n % 10)]
  }

  /** Writing a number and reading it back. */
  lemma {:induction false} NumberOfDecimal(n: nat)
    ensures Number(Decimal(n)) == n
  {
    var text := Decimal(n);
    if n < 10 {
      assert text[..0] == "";
    } else {
      NumberOfDecimal(n / 10);
      assert text[..|text| - 1] == Decimal(n / 10);
    }
  }

  function LeadingDigits(text: string): (n: nat)
    ensures n <= |text| && (forall c <- text[..n] :: IsDigit(c)) && (n < |text| ==> !IsDigit(text[n]))
    decreases |text|
  {
    if text == "" || !IsDigit(text[0]) then 0
    else
      var n := LeadingDigits(text[1..]);
      assert text[..n + 1] == [text[0]] + text[1..][..n];
      n + 1
  }

  // ---- the grammar, read from the left ----

  datatype Label = Alpha | Beta | Candidate

  datatype Pre = Pre(mark: Label, number: nat)

  datatype Version = Version(
    epoch: nat,
    release: seq<nat>,
    pre: Option<Pre>,
    post: Option<nat>,
    dev: Option<nat>,
    local: Option<seq<string>>)

  function ReadNumber(text: string): (r: Option<(nat, string)>)
    ensures r.Some? ==> |r.value.1| < |text|
  {
    var n := LeadingDigits(text);
    if n == 0 then None else Some((Number(text[..n]), text[n..]))
  }

  /** An optional number, zero when it is left out. */
  function ReadOptionalNumber(text: string): (nat, string) {
    match ReadNumber(text)
    case None => (0, text)
    case Some(r) => r
  }

  function SkipSeparator(text: string): string {
    if text != "" && IsSeparator(text[0]) then text[1..] else text
  }

  function ReadEpoch(text: string): (nat, string) {
    match ReadNumber(text)
    case None => (0, text)
    case Some((n, rest)) => if rest != "" && rest[0] == '!' then (n, rest[1..]) else (0, text)
  }

  function ReadMoreRelease(text: string): (seq<nat>, string)
    decreases |text|
  {
    if text == "" || text[0] != '.' then ([], text)
    else
      match ReadNumber(text[1..])
      case None => ([], text)
      case Some((n, rest)) =>
        var (more, end) := ReadMoreRelease(rest);
        ([n] + more, end)
  }

  function ReadRelease(text: string): Option<(seq<nat>, string)> {
    match ReadNumber(text)
    case None => None
    case Some((n, rest)) =>
      var (more, end) := ReadMoreRelease(rest);
      Some(([n] + more, end))
  }

  function ReadLabel(text: string): Option<(Label, string)> {
    if "alpha" <= text then Some((Alpha, text[5..]))
    else if "a" <= text then Some((Alpha, text[1..]))
    else if "beta" <= text then Some((Beta, text[4..]))
    else if "b" <= text then Some((Beta, text[1..]))
    else if "preview" <= text then Some((Candidate, text[7..]))
    else if "pre" <= text then Some((Candidate, text[3..]))
    else if "c" <= text then Some((Candidate, text[1..]))
    else if "rc" <= text then Some((Candidate, text[2..]))
    else None
  }

  function ReadPre(text: string): (Option<Pre>, string) {
    match ReadLabel(SkipSeparator(text))
    case None => (None, text)
    case Some((mark, rest)) =>
      var (n, end) := ReadOptionalNumber(SkipSeparator(rest));
      (Some(Pre(mark, n)), end)
  }

  function ReadPostLabel(text: string): Option<string> {
    if "post" <= text then Some(text[4..])
    else if "rev" <= text then Some(text[3..])
    else if "r" <= text then Some(text[1..])
    else None
  }

  function ReadPost(text: string): (Option<nat>, string) {
    if text != "" && text[0] == '-' && ReadNumber(text[1..]).Some? then
      var (n, end) := ReadNumber(text[1..]).value;
      (Some(n), end)
    else
      match ReadPostLabel(SkipSeparator(text))
      case None => (None, text)
      case Some(rest) =>
        var (n, end) := ReadOptionalNumber(SkipSeparator(rest));
        (Some(n), end)
  }

  function ReadDev(text: string): (Option<nat>, string) {
    if "dev" <= SkipSeparator(text) then
      var (n, end) := ReadOptionalNumber(SkipSeparator(SkipSeparator(text)[3..]));
      (Some(n), end)
    else (None, text)
  }

  function LeadingAlnum(text: string): (n: nat)
    ensures n <= |text| && (forall c <- text[..n] :: IsAlnum(c)) && (n < |text| ==> !IsAlnum(text[n]))
    decreases |text|
  {
    if text == "" || !IsAlnum(text[0]) then 0
    else
      var n := LeadingAlnum(text[1..]);
      assert text[..n + 1] == [text[0]] + text[1..][..n];
      n + 1
  }

  function ReadMoreLocal(text: string): (seq<string>, string)
    decreases |text|
  {
    if text == "" || !IsSeparator(text[0]) || LeadingAlnum(text[1..]) == 0 then ([], text)
    else
      var n := LeadingAlnum(text[1..]);
      var (more, end) := ReadMoreLocal(text[1..][n..]);
      ([text[1..][..n]] + more, end)
  }

  function ReadLocal(text: string): (Option<seq<string>>, string) {
    if text == "" || text[0] != '+' || LeadingAlnum(text[1..]) == 0 then (None, text)
    else
      var n := LeadingAlnum(text[1..]);
      var (more, end) := ReadMoreLocal(text[1..][n..]);
      (Some([text[1..][..n]] + more), end)
  }

  function SkipSpaces(text: string): string
    decreases |text|
  {
    if text != "" && IsSpace(text[0]) then SkipSpaces(text[1..]) else text
  }

  function SkipV(text: string): string {
    if text != "" && text[0] == 'v' then text[1..] else text
  }

  /** What follows the release: pre, post, dev and local parts, then only spaces. */
  function ReadTail(epoch: nat, release: seq<nat>, text: string): Option<Version> {
    var (pre, afterPre) := ReadPre(text);
    var (post, afterPost) := ReadPost(afterPre);
    var (dev, afterDev) := ReadDev(afterPost);
    var (local, afterLocal) := ReadLocal(afterDev);
    if SkipSpaces(afterLocal) == "" then Some(Version(epoch, release, pre, post, dev, local)) else None
  }

  /** A version in any accepted spelling; letter case does not matter. */
  function Parse(text: string): Option<Version> {
    var (epoch, afterEpoch) := ReadEpoch(SkipV(SkipSpaces(Lower(text))));
    match ReadRelease(afterEpoch)
    case None => None
    case Some((release, tail)) => ReadTail(epoch, release, tail)
  }

  // ---- the normal form ----

  function LabelText(mark: Label): string {
    match mark
    case Alpha => "a"
    case Beta => "b"
    case Candidate => "rc"
  }

  function EpochText(epoch: nat): string {
    if epoch == 0 then "" else Decimal(epoch) + "!"
  }

  function DottedMore(numbers: seq<nat>): string {
    if numbers == [] then "" else "." + Decimal(numbers[0]) + DottedMore(numbers[1..])
  }

  function PreText(pre: Option<Pre>): string {
    if pre.Some? then LabelText(pre.value.mark) + Decimal(pre.value.number) else ""
  }

  function PostText(post: Option<nat>): string {
    if post.Some? then ".post" + Decimal(post.value) else ""
  }

  function DevText(dev: Option<nat>): string {
    if dev.Some? then ".dev" + Decimal(dev.value) else ""
  }

  function LocalMore(segments: seq<string>): string {
    if segments == [] then "" else "." + segments[0] + LocalMore(segments[1..])
  }

  function LocalText(local: Option<seq<string>>): string {
    if local.Some? && local.value != [] then "+" + local.value[0] + LocalMore(local.value[1..]) else ""
  }

  function TailText(v: Version): string {
    PreText(v.pre) + (PostText(v.post) + (DevText(v.dev) + LocalText(v.local)))
  }

  function Canonical(v: Version): string
    requires v.release != []
  {
    EpochText(v.epoch) + (Decimal(v.release[0]) + (DottedMore(v.release[1..]) + TailText(v)))
  }

  ghost predicate IsSegment(text: string) {
    text != "" && forall c <- text :: IsAlnum(c)
  }

  ghost predicate Legal(v: Version) {
    && v.release != []
    && (v.local.Some? ==> v.local.value != [] && forall segment <- v.local.value :: IsSegment(segment))
  }

  // ---- reading the normal form back ----

  /** Nothing a number could continue with. */
  ghost predicate NoDigit(text: string) {
    text == "" || !IsDigit(text[0])
  }

  lemma {:induction false} DigitsThen(digits: string, rest: string)
    requires (forall c <- digits :: IsDigit(c)) && NoDigit(rest)
    ensures LeadingDigits(digits + rest) == |digits|
    ensures (digits + rest)[..|digits|] == digits && (digits + rest)[|digits|..] == rest
    decreases |digits|
  {
    if digits == "" {
      assert digits + rest == rest;
    } else {
      assert (digits + rest)[1..] == digits[1..] + rest;
      DigitsThen(digits[1..], rest);
    }
  }

  lemma NumeralThen(digits: string, rest: string)
    requires IsNumeral(digits) && NoDigit(rest)
    ensures ReadNumber(digits + rest) == Some((Number(digits), rest))
    ensures ReadOptionalNumber(SkipSeparator(digits + rest)) == (Number(digits), rest)
  {
    DigitsThen(digits, rest);
    assert IsDigit(digits[0]);
  }

  ghost predicate AfterDev(text: string) {
    text == "" || text[0] == '+'
  }

  ghost predicate AfterPost(text: string) {
    AfterDev(text) || ".dev" <= text
  }

  ghost predicate AfterPre(text: string) {
    AfterPost(text) || ".post" <= text
  }

  ghost predicate AfterRelease(text: string) {
    AfterPre(text) || "a" <= text || "b" <= text || "rc" <= text
  }

  lemma {:induction false} AlnumThen(segment: string, rest: string)
    requires (forall c <- segment :: IsAlnum(c)) && (rest == "" || !IsAlnum(rest[0]))
    ensures LeadingAlnum(segment + rest) == |segment|
    ensures (segment + rest)[..|segment|] == segment && (segment + rest)[|segment|..] == rest
    decreases |segment|
  {
    if segment == "" {
      assert segment + rest == rest;
    } else {
      assert (segment + rest)[1..] == segment[1..] + rest;
      AlnumThen(segment[1..], rest);
    }
  }

  lemma SegmentReads(lead: string, segment: string, rest: string)
    requires |lead| == 1 && IsSegment(segment) && (rest == "" || rest[0] == '.')
    ensures var text := lead + segment + rest;
      && text[0] == lead[0] && LeadingAlnum(text[1..]) == |segment|
      && text[1..][..|segment|] == segment && text[1..][|segment|..] == rest
  {
    hide LeadingAlnum();
    AlnumThen(segment, rest);
    assert (lead + segment + rest)[1..] == segment + rest;
  }

  lemma {:induction false} MoreLocalReads(segments: seq<string>)
    requires forall segment <- segments :: IsSegment(segment)
    ensures ReadMoreLocal(LocalMore(segments)) == (segments, "")
    ensures LocalMore(segments) == "" || LocalMore(segments)[0] == '.'
    decreases |segments|
  {
    hide LeadingAlnum(), IsSegment();
    if segments != [] {
      MoreLocalReads(segments[1..]);
      assert IsSegment(segments[0]);
      SegmentReads(".", segments[0], LocalMore(segments[1..]));
      SegmentIsLong(segments[0]);
      assert [segments[0]] + segments[1..] == segments;
    }
  }

  lemma SegmentIsLong(segment: string)
    requires IsSegment(segment)
    ensures |segment| > 0
  {
  }

  lemma LocalReads(local: Option<seq<string>>)
    requires local.Some? ==> local.value != [] && forall segment <- local.value :: IsSegment(segment)
    ensures ReadLocal(LocalText(local)) == (local, "") && AfterDev(LocalText(local))
  {
    hide LeadingAlnum(), IsSegment(), LocalMore(), ReadMoreLocal();
    if local.Some? {
      MoreLocalReads(local.value[1..]);
      assert IsSegment(local.value[0]);
      SegmentReads("+", local.value[0], LocalMore(local.value[1..]));
      SegmentIsLong(local.value[0]);
      assert [local.value[0]] + local.value[1..] == local.value;
    }
  }

  lemma DevReads(dev: Option<nat>, text: string)
    requires AfterDev(text)
    ensures ReadDev(DevText(dev) + text) == (dev, text) && AfterPost(DevText(dev) + text)
  {
    hide Decimal(), ReadOptionalNumber(), Number();
    if dev.Some? {
      var digits := Decimal(dev.value);
      var whole := DevText(dev) + text;
      assert whole == ".dev" + (digits + text);
      assert whole[1..] == "dev" + (digits + text);
      assert whole[1..][3..] == digits + text;
      NumeralThen(digits, text);
      NumberOfDecimal(dev.value);
    } else {
      assert DevText(dev) + text == text;
    }
  }

  /** A word the text cannot start with. */
  lemma OtherWord(text: string, word: string, i: nat)
    requires i < |word| && (i < |text| ==> text[i] != word[i])
    ensures !(word <= text)
  {
  }

  lemma NoPostHere(text: string)
    requires AfterPost(text)
    ensures ReadPost(text) == (None, text)
  {
    hide ReadOptionalNumber(), ReadNumber();
    if ".dev" <= text {
      assert text[0] == '.' && text[1] == 'd';
    }
    var skipped := SkipSeparator(text);
    assert skipped != "" ==> skipped[0] in {'d', '+'};
    OtherWord(skipped, "post", 0);
    OtherWord(skipped, "rev", 0);
    OtherWord(skipped, "r", 0);
  }

  lemma PostReads(post: Option<nat>, text: string)
    requires AfterPost(text)
    ensures ReadPost(PostText(post) + text) == (post, text) && AfterPre(PostText(post) + text)
  {
    hide Decimal(), ReadOptionalNumber(), Number(), ReadNumber();
    if post.Some? {
      var digits := Decimal(post.value);
      var whole := PostText(post) + text;
      assert whole == ".post" + (digits + text);
      assert whole[1..] == "post" + (digits + text);
      assert whole[1..][4..] == digits + text;
      NumeralThen(digits, text);
      NumberOfDecimal(post.value);
    } else {
      NoPostHere(text);
      assert PostText(post) + text == text;
    }
  }

  lemma NoLabelHere(text: string)
    requires text == "" || text[0] in {'d', '+'} || (text[0] == 'p' && (|text| > 1 ==> text[1] == 'o'))
    ensures ReadLabel(text) == None
  {
    OtherWord(text, "alpha", 0);
    OtherWord(text, "a", 0);
    OtherWord(text, "beta", 0);
    OtherWord(text, "b", 0);
    if text != "" && text[0] == 'p' {
      OtherWord(text, "preview", 1);
      OtherWord(text, "pre", 1);
    } else {
      OtherWord(text, "preview", 0);
      OtherWord(text, "pre", 0);
    }
    OtherWord(text, "c", 0);
    OtherWord(text, "rc", 0);
  }

  lemma NoPreHere(text: string)
    requires AfterPre(text)
    ensures ReadPre(text) == (None, text)
  {
    hide ReadLabel(), ReadOptionalNumber();
    if ".post" <= text {
      assert text[0] == '.' && text[1] == 'p' && text[2] == 'o';
    } else if ".dev" <= text {
      assert text[0] == '.' && text[1] == 'd';
    }
    NoLabelHere(SkipSeparator(text));
  }

  lemma LabelHere(mark: Label, rest: string)
    requires rest != "" && IsDigit(rest[0])
    ensures ReadLabel(LabelText(mark) + rest) == Some((mark, rest))
  {
    var text := LabelText(mark) + rest;
    assert text[|LabelText(mark)|..] == rest && text[|LabelText(mark)|] == rest[0];
    OtherWord(text, "alpha", 1);
    OtherWord(text, "beta", 1);
    match mark
    case Alpha => assert "a" <= text;
    case Beta =>
      OtherWord(text, "a", 0);
      assert "b" <= text;
    case Candidate =>
      OtherWord(text, "a", 0);
      OtherWord(text, "b", 0);
      OtherWord(text, "preview", 0);
      OtherWord(text, "pre", 0);
      OtherWord(text, "c", 0);
      assert "rc" <= text;
  }

  /** A label and its number, without separators. */
  lemma PreNumeralReads(mark: Label, digits: string, text: string)
    requires IsNumeral(digits) && AfterPre(text)
    ensures ReadPre(LabelText(mark) + (digits + text)) == (Some(Pre(mark, Number(digits))), text)
    ensures AfterRelease(LabelText(mark) + (digits + text))
  {
    hide ReadOptionalNumber(), Number(), ReadLabel(), AfterPre();
    var whole := LabelText(mark) + (digits + text);
    assert IsDigit(digits[0]) && (digits + text)[0] == digits[0];
    assert NoDigit(text) by { AfterPreNoDigit(text); }
    LabelHere(mark, digits + text);
    NumeralThen(digits, text);
    assert LabelText(mark) <= whole;
    assert !IsSeparator(whole[0]);
  }

  lemma AfterPreNoDigit(text: string)
    requires AfterPre(text)
    ensures NoDigit(text)
  {
  }

  lemma PreReads(pre: Option<Pre>, text: string)
    requires AfterPre(text)
    ensures ReadPre(PreText(pre) + text) == (pre, text) && AfterRelease(PreText(pre) + text)
  {
    hide Decimal(), Number(), ReadPre();
    if pre.Some? {
      PreNumeralReads(pre.value.mark, Decimal(pre.value.number), text);
      NumberOfDecimal(pre.value.number);
      var digits := Decimal(pre.value.number);
      assert LabelText(pre.value.mark) + digits + text == LabelText(pre.value.mark) + (digits + text);
    } else {
      NoPreHere(text);
      assert PreText(pre) + text == text;
    }
  }

  lemma NoMoreReleaseHere(text: string)
    requires AfterRelease(text)
    ensures ReadMoreRelease(text) == ([], text) && NoDigit(text) && (text != "" ==> text[0] != '!')
  {
    if ".post" <= text {
      assert text[0] == '.' && text[1] == 'p';
      assert text[1..][0] == 'p';
    } else if ".dev" <= text {
      assert text[0] == '.' && text[1] == 'd';
      assert text[1..][0] == 'd';
    }
  }

  /** One more component of the release. */
  lemma ComponentReads(digits: string, rest: string)
    requires IsNumeral(digits) && NoDigit(rest)
    ensures ReadMoreRelease("." + (digits + rest))
         == ([Number(digits)] + ReadMoreRelease(rest).0, ReadMoreRelease(rest).1)
  {
    hide Number(), ReadNumber();
    var text := "." + (digits + rest);
    assert text[1..] == digits + rest;
    NumeralThen(digits, rest);
  }

  lemma {:induction false} MoreReleaseReads(numbers: seq<nat>, text: string)
    requires AfterRelease(text)
    ensures ReadMoreRelease(DottedMore(numbers) + text) == (numbers, text)
    ensures NoDigit(DottedMore(numbers) + text)
    ensures DottedMore(numbers) + text != "" ==> (DottedMore(numbers) + text)[0] != '!'
    decreases |numbers|
  {
    hide Decimal(), Number(), ReadMoreRelease(), AfterRelease();
    if numbers == [] {
      assert DottedMore(numbers) + text == text;
      NoMoreReleaseHere(text);
    } else {
      var rest := DottedMore(numbers[1..]) + text;
      MoreReleaseReads(numbers[1..], text);
      ComponentReads(Decimal(numbers[0]), rest);
      NumberOfDecimal(numbers[0]);
      assert DottedMore(numbers) + text == "." + (Decimal(numbers[0]) + rest);
      assert [numbers[0]] + numbers[1..] == numbers;
    }
  }

  lemma TailReads(v: Version)
    requires Legal(v)
    ensures ReadTail(v.epoch, v.release, TailText(v)) == Some(v) && AfterRelease(TailText(v))
  {
    hide ReadPre(), ReadPost(), ReadDev(), ReadLocal(), PreText(), PostText(), DevText(), LocalText();
    hide AfterDev(), AfterPost(), AfterPre(), AfterRelease();
    var afterPost := DevText(v.dev) + LocalText(v.local);
    LocalReads(v.local);
    DevReads(v.dev, LocalText(v.local));
    PostReads(v.post, afterPost);
    PreReads(v.pre, PostText(v.post) + afterPost);
  }

  /** A release number, then the epoch mark or the rest of the version. */
  lemma EpochReads(epoch: nat, digits: string, rest: string)
    requires IsNumeral(digits) && NoDigit(rest) && (rest != "" ==> rest[0] != '!')
    ensures ReadEpoch(EpochText(epoch) + (digits + rest)) == (epoch, digits + rest)
    ensures EpochText(epoch) + (digits + rest) != "" && IsDigit((EpochText(epoch) + (digits + rest))[0])
  {
    hide Decimal(), Number(), ReadNumber();
    var tail := digits + rest;
    assert IsDigit(digits[0]) && tail[0] == digits[0];
    if epoch == 0 {
      assert EpochText(epoch) + tail == tail;
      NumeralThen(digits, rest);
    } else {
      assert EpochText(epoch) + tail == Decimal(epoch) + ("!" + tail);
      assert ("!" + tail)[1..] == tail;
      assert IsDigit(Decimal(epoch)[0]);
      NumeralThen(Decimal(epoch), "!" + tail);
      NumberOfDecimal(epoch);
    }
  }

  ghost predicate NoCapitals(text: string) {
    forall i :: 0 <= i < |text| ==> !('A' <= text[i] <= 'Z')
  }

  lemma LowerAlready(text: string)
    requires NoCapitals(text)
    ensures Lower(text) == text
  {
  }

  lemma NumeralHasNoCapitals(digits: string)
    requires IsNumeral(digits)
    ensures NoCapitals(digits)
  {
    forall i | 0 <= i < |digits|
      ensures !('A' <= digits[i] <= 'Z')
    {
      assert IsDigit(digits[i]);
    }
  }

  lemma SegmentHasNoCapitals(segment: string)
    requires IsSegment(segment)
    ensures NoCapitals(segment)
  {
    forall i | 0 <= i < |segment|
      ensures !('A' <= segment[i] <= 'Z')
    {
      assert IsAlnum(segment[i]);
    }
  }

  lemma {:induction false} MoreHasNoCapitals(numbers: seq<nat>, segments: seq<string>)
    requires forall segment <- segments :: IsSegment(segment)
    ensures NoCapitals(DottedMore(numbers)) && NoCapitals(LocalMore(segments))
    decreases |numbers| + |segments|
  {
    hide Decimal(), IsSegment();
    if numbers != [] {
      MoreHasNoCapitals(numbers[1..], segments);
      NumeralHasNoCapitals(Decimal(numbers[0]));
    }
    if segments != [] {
      MoreHasNoCapitals(numbers, segments[1..]);
      SegmentHasNoCapitals(segments[0]);
    }
  }

  lemma TailHasNoCapitals(v: Version)
    requires Legal(v)
    ensures NoCapitals(PreText(v.pre)) && NoCapitals(PostText(v.post))
    ensures NoCapitals(DevText(v.dev)) && NoCapitals(LocalText(v.local))
  {
    hide Decimal(), IsSegment(), LocalMore(), DottedMore();
    if v.pre.Some? {
      NumeralHasNoCapitals(Decimal(v.pre.value.number));
    }
    if v.post.Some? {
      NumeralHasNoCapitals(Decimal(v.post.value));
    }
    if v.dev.Some? {
      NumeralHasNoCapitals(Decimal(v.dev.value));
    }
    if v.local.Some? {
      SegmentHasNoCapitals(v.local.value[0]);
      MoreHasNoCapitals([], v.local.value[1..]);
    }
  }

  lemma CanonicalIsLower(v: Version)
    requires Legal(v)
    ensures NoCapitals(Canonical(v))
  {
    hide Decimal(), DottedMore(), PreText(), PostText(), DevText(), LocalText();
    TailHasNoCapitals(v);
    MoreHasNoCapitals(v.release[1..], []);
    NumeralHasNoCapitals(Decimal(v.release[0]));
    if v.epoch != 0 {
      NumeralHasNoCapitals(Decimal(v.epoch));
    }
  }

  lemma DigitFirst(text: string)
    requires text != "" && IsDigit(text[0])
    ensures SkipV(SkipSpaces(text)) == text
  {
  }

  /** Reading the normal form of a version gives that version. */
  lemma CanonicalReads(v: Version)
    requires Legal(v)
    ensures Parse(Canonical(v)) == Some(v)
  {
    hide ReadEpoch(), ReadMoreRelease(), ReadTail(), ReadNumber(), Decimal(), Number(), DottedMore(), TailText();
    hide AfterRelease(), EpochText(), Lower(), SkipV(), SkipSpaces();
    var text := Canonical(v);
    var more := DottedMore(v.release[1..]) + TailText(v);
    TailReads(v);
    MoreReleaseReads(v.release[1..], TailText(v));
    EpochReads(v.epoch, Decimal(v.release[0]), more);
    NumeralThen(Decimal(v.release[0]), more);
    NumberOfDecimal(v.release[0]);
    assert [v.release[0]] + v.release[1..] == v.release;
    DigitFirst(text);
    CanonicalIsLower(v);
    LowerAlready(text);
  }

  // ---- normalising ----

  lemma {:induction false} MoreLocalIsLegal(text: string)
    ensures forall segment <- ReadMoreLocal(text).0 :: IsSegment(segment)
    decreases |text|
  {
    hide LeadingAlnum();
    if text != "" && IsSeparator(text[0]) && LeadingAlnum(text[1..]) > 0 {
      MoreLocalIsLegal(text[1..][LeadingAlnum(text[1..])..]);
    }
  }

  lemma LocalIsLegal(text: string)
    ensures var local := ReadLocal(text).0;
      local.Some? ==> local.value != [] && forall segment <- local.value :: IsSegment(segment)
  {
    hide LeadingAlnum(), ReadMoreLocal();
    if text != "" && text[0] == '+' && LeadingAlnum(text[1..]) > 0 {
      MoreLocalIsLegal(text[1..][LeadingAlnum(text[1..])..]);
    }
  }

  lemma ParseIsLegal(text: string)
    ensures Parse(text).Some? ==> Legal(Parse(text).value)
  {
    hide ReadLocal(), ReadEpoch(), ReadMoreRelease(), ReadPre(), ReadPost(), ReadDev(), SkipSpaces(), SkipV(), Lower();
    hide IsSegment(), ReadNumber();
    var read := ReadRelease(ReadEpoch(SkipV(SkipSpaces(Lower(text)))).1);
    if read.Some? {
      LocalIsLegal(ReadDev(ReadPost(ReadPre(read.value.1).1).1).1);
    }
  }

  function NormalForm(text: string): Option<string> {
    ParseIsLegal(text);
    match Parse(text)
    case None => None
    case Some(v) => Some(Canonical(v))
  }

  /** Normalising again changes nothing, and two spellings normalise alike exactly when they are the same version. */
  lemma NormalFormIsStable(s: string, t: string)
    requires Parse(s).Some? && Parse(t).Some?
    ensures NormalForm(NormalForm(s).value) == NormalForm(s)
    ensures NormalForm(s) == NormalForm(t) <==> Parse(s) == Parse(t)
  {
    hide Parse(), Canonical();
    ParseIsLegal(s);
    ParseIsLegal(t);
    CanonicalReads(Parse(s).value);
    CanonicalReads(Parse(t).value);
  }

  datatype Error = NotAVersion | NotCanonical | OutsideTheScheme | NoAssignment | SeveralAssignments

  datatype Result<+T> = Ok(value: T) | Err(error: Error)

  lemma Assembled(v: Version, out: string)
    requires v.release != []
    requires out == EpochText(v.epoch) + (Decimal(v.release[0]) + DottedMore(v.release[1..]))
                    + PreText(v.pre) + PostText(v.post) + DevText(v.dev) + LocalText(v.local)
    ensures out == Canonical(v)
  {
    hide EpochText(), Decimal(), DottedMore(), PreText(), PostText(), DevText(), LocalText();
  }

  /** Builds the normal form piece by piece. */
  method Normalize(version: string) returns (r: Result<string>)
    ensures r == match NormalForm(version)
                 case None => Err(NotAVersion)
                 case Some(text) => Ok(text)
  {
    hide Parse(), Decimal(), DottedMore(), LocalMore(), Canonical();
    var parsed := Parse(version);
    ParseIsLegal(version);
    if parsed == None {
      return Err(NotAVersion);
    }
    var v := parsed.value;
    var out := "";
    if v.epoch != 0 {
      out := out + (Decimal(v.epoch) + "!");
    }
    ghost var epoch := EpochText(v.epoch);
    out := out + (Decimal(v.release[0]) + DottedMore(v.release[1..]));
    assert out == epoch + (Decimal(v.release[0]) + DottedMore(v.release[1..]));
    ghost var s1 := out;
    if v.pre.Some? {
      out := out + (LabelText(v.pre.value.mark) + Decimal(v.pre.value.number));
    }
    assert out == s1 + PreText(v.pre) by { assert s1 + "" == s1; }
    ghost var s2 := out;
    if v.post.Some? {
      out := out + (".post" + Decimal(v.post.value));
    }
    assert out == s2 + PostText(v.post) by { assert s2 + "" == s2; }
    ghost var s3 := out;
    if v.dev.Some? {
      out := out + (".dev" + Decimal(v.dev.value));
    }
    assert out == s3 + DevText(v.dev) by { assert s3 + "" == s3; }
    ghost var s4 := out;
    if v.local.Some? {
      out := out + ("+" + v.local.value[0] + LocalMore(v.local.value[1..]));
    }
    assert out == s4 + LocalText(v.local) by { assert s4 + "" == s4; }
    Assembled(v, out);
    return Ok(out);
  }

  // ---- the release scheme ----

  /** The two shapes a release line alternates between. */
  datatype Scheme =
    | Stable(major: nat, minor: nat, patch: nat)
    | BetaLine(major: nat, minor: nat, patch: nat, beta: nat)

  function ReadDotNumber(text: string): Option<(nat, string)> {
    if text != "" && text[0] == '.' then ReadNumber(text[1..]) else None
  }

  /** `X.Y.Z` or `X.Y.ZbN`, and nothing around it. */
  function MatchScheme(text: string): Option<Scheme> {
    match ReadNumber(text)
    case None => None
    case Some((x, afterX)) =>
      match ReadDotNumber(afterX)
      case None => None
      case Some((y, afterY)) =>
        match ReadDotNumber(afterY)
        case None => None
        case Some((z, tail)) =>
          if tail == "" then Some(Stable(x, y, z))
          else if tail[0] != 'b' then None
          else
            match ReadNumber(tail[1..])
            case None => None
            case Some((n, end)) => if end == "" then Some(BetaLine(x, y, z, n)) else None
  }

  function VersionOf(s: Scheme): Version {
    Version(0, [s.major, s.minor, s.patch], if s.BetaLine? then Some(Pre(Beta, s.beta)) else None, None, None, None)
  }

  function SchemeTail(s: Scheme): string {
    if s.BetaLine? then "b" + Decimal(s.beta) else ""
  }

  function SchemeText(s: Scheme): string {
    Decimal(s.major) + ("." + (Decimal(s.minor) + ("." + (Decimal(s.patch) + SchemeTail(s)))))
  }

  function Successor(s: Scheme): Scheme {
    if s.BetaLine? then s.(beta := s.beta + 1) else BetaLine(s.major, s.minor, s.patch + 1, 0)
  }

  datatype Line = BetaRelease | StableRelease | OtherRelease

  function Classify(version: string): Result<(Line, string)> {
    match NormalForm(version)
    case None => Err(NotAVersion)
    case Some(canonical) =>
      if canonical != version then Err(NotCanonical)
      else
        match MatchScheme(version)
        case Some(s) => Ok((if s.BetaLine? then BetaRelease else StableRelease, SchemeText(Successor(s))))
        case None => Ok((OtherRelease, ""))
  }

  lemma DotNumeralReads(digits: string, rest: string)
    requires IsNumeral(digits) && NoDigit(rest)
    ensures ReadDotNumber("." + (digits + rest)) == Some((Number(digits), rest))
  {
    hide Number(), ReadNumber();
    assert ("." + (digits + rest))[1..] == digits + rest;
    NumeralThen(digits, rest);
  }

  lemma SchemeTextMatches(s: Scheme)
    ensures MatchScheme(SchemeText(s)) == Some(s)
  {
    hide Decimal(), Number(), ReadNumber(), ReadDotNumber();
    var tail := SchemeTail(s);
    NumberOfDecimal(s.major);
    NumberOfDecimal(s.minor);
    NumberOfDecimal(s.patch);
    DotNumeralReads(Decimal(s.patch), tail);
    DotNumeralReads(Decimal(s.minor), "." + (Decimal(s.patch) + tail));
    NumeralThen(Decimal(s.major), "." + (Decimal(s.minor) + ("." + (Decimal(s.patch) + tail))));
    if s.BetaLine? {
      NumberOfDecimal(s.beta);
      assert tail[1..] == Decimal(s.beta);
      assert Decimal(s.beta) + "" == Decimal(s.beta);
      NumeralThen(Decimal(s.beta), "");
    }
  }

  lemma DottedTwo(a: nat, b: nat)
    ensures DottedMore([a, b]) == "." + (Decimal(a) + ("." + Decimal(b)))
  {
    hide Decimal();
    assert [a, b][1..] == [b] && [b][1..] == [];
    assert DottedMore([b]) == "." + Decimal(b) + "";
  }

  lemma SchemeTailIsCanonical(s: Scheme)
    ensures TailText(VersionOf(s)) == SchemeTail(s)
  {
    hide Decimal();
    assert "" + ("" + ("" + "")) == "";
    assert PreText(VersionOf(s).pre) + "" == PreText(VersionOf(s).pre);
  }

  lemma SchemeTextIsCanonical(s: Scheme)
    ensures Canonical(VersionOf(s)) == SchemeText(s) && Legal(VersionOf(s))
  {
    hide Decimal(), DottedMore(), TailText(), SchemeTail();
    var v := VersionOf(s);
    assert v.release[1..] == [s.minor, s.patch];
    DottedTwo(s.minor, s.patch);
    SchemeTailIsCanonical(s);
    assert "" + SchemeText(s) == SchemeText(s);
  }

  /** Digits at the start of a text, and what comes after them. */
  lemma NumberSplits(text: string)
    returns (digits: string, rest: string)
    requires ReadNumber(text).Some?
    ensures IsNumeral(digits) && NoDigit(rest) && text == digits + rest
    ensures ReadNumber(text) == Some((Number(digits), rest))
  {
    var n := LeadingDigits(text);
    digits, rest := text[..n], text[n..];
  }

  lemma DotNumberSplits(text: string)
    returns (digits: string, rest: string)
    requires ReadDotNumber(text).Some?
    ensures IsNumeral(digits) && NoDigit(rest) && text == "." + (digits + rest)
    ensures ReadDotNumber(text) == Some((Number(digits), rest))
  {
    hide Number(), ReadNumber();
    digits, rest := NumberSplits(text[1..]);
    assert text == [text[0]] + text[1..];
  }

  lemma SchemeTailReads(epoch: nat, release: seq<nat>, tail: string)
    requires tail == "" || (tail[0] == 'b' && ReadNumber(tail[1..]).Some? && ReadNumber(tail[1..]).value.1 == "")
    ensures ReadTail(epoch, release, tail)
         == Some(Version(epoch, release,
                         if tail == "" then None else Some(Pre(Beta, ReadNumber(tail[1..]).value.0)), None, None, None))
    ensures AfterRelease(tail) && NoCapitals(tail)
  {
    hide ReadPre(), ReadPost(), ReadDev(), ReadLocal(), Number(), ReadNumber(), NoCapitals(), AfterRelease(), AfterPre();
    NothingAfter();
    if tail == "" {
      PreReads(None, "");
      assert PreText(None) + "" == "";
    } else {
      var digits, rest := NumberSplits(tail[1..]);
      PreNumeralReads(Beta, digits, "");
      assert digits + "" == digits && tail == "b" + digits;
      NumeralHasNoCapitals(digits);
      LeadHasNoCapitals("b", digits);
    }
  }

  lemma NothingAfter()
    ensures ReadPost("") == (None, "") && ReadDev("") == (None, "") && ReadLocal("") == (None, "")
    ensures AfterPre("") && AfterRelease("") && NoCapitals("")
  {
  }

  lemma LeadHasNoCapitals(first: string, second: string)
    requires NoCapitals(first) && NoCapitals(second)
    ensures NoCapitals(first + second)
  {
  }

  /** Any text of a scheme's shape, leading zeros or not, reads as that scheme's version. */
  lemma MatchedSchemeParses(text: string)
    requires MatchScheme(text).Some?
    ensures Parse(text) == Some(VersionOf(MatchScheme(text).value))
  {
    hide Number(), ReadNumber(), ReadDotNumber(), ReadTail(), ReadMoreRelease(), ReadEpoch(), NoCapitals();
    hide AfterRelease(), Lower(), SkipV(), SkipSpaces(), IsNumeral();
    var d1, r1 := NumberSplits(text);
    var d2, r2 := DotNumberSplits(r1);
    var d3, tail := DotNumberSplits(r2);
    var s := MatchScheme(text).value;
    SchemeTailReads(0, [s.major, s.minor, s.patch], tail);
    NoMoreReleaseHere(tail);
    ComponentReads(d3, tail);
    ComponentReads(d2, r2);
    assert ReadMoreRelease(r1).0 == [s.minor] + ([s.patch] + []);
    assert [s.major] + ([s.minor] + ([s.patch] + [])) == [s.major, s.minor, s.patch];
    EpochReads(0, d1, r1);
    assert EpochText(0) + (d1 + r1) == text;
    DigitFirst(text);
    NumeralThen(d1, r1);
    NumeralHasNoCapitals(d1);
    NumeralHasNoCapitals(d2);
    NumeralHasNoCapitals(d3);
    LeadHasNoCapitals(d3, tail);
    DotHasNoCapitals();
    LeadHasNoCapitals(".", d3 + tail);
    LeadHasNoCapitals(d2, r2);
    LeadHasNoCapitals(".", d2 + r2);
    LeadHasNoCapitals(d1, r1);
    LowerAlready(text);
  }

  lemma DotHasNoCapitals()
    ensures NoCapitals(".")
  {
  }

  /** A canonical version matches a scheme exactly when it is that scheme's version. */
  lemma SchemeIsTheShape(v: Version, s: Scheme)
    requires Legal(v)
    ensures MatchScheme(Canonical(v)) == Some(s) <==> v == VersionOf(s)
  {
    hide Parse(), Canonical(), MatchScheme();
    CanonicalReads(v);
    SchemeTextIsCanonical(s);
    SchemeTextMatches(s);
    if MatchScheme(Canonical(v)).Some? {
      MatchedSchemeParses(Canonical(v));
    }
  }

  // ---- the order of versions ----

  function Sign(d: int): int {
    if d < 0 then -1 else if d > 0 then 1 else 0
  }

  function Part(release: seq<nat>, i: nat): nat {
    if i < |release| then release[i] else 0
  }

  /** Releases compare part by part, the shorter padded with zeros. */
  function CompareRelease(a: seq<nat>, b: seq<nat>, i: nat): int
    decreases |a| + |b| - i
  {
    if i >= |a| + |b| then 0
    else if Part(a, i) != Part(b, i) then Sign(Part(a, i) as int - Part(b, i))
    else CompareRelease(a, b, i + 1)
  }

  /** Where the pre, post and dev parts put a version among those of one release: dev, then pre, final, post. */
  function PreRank(v: Version): (int, int) {
    if v.pre.Some? then
      (match v.pre.value.mark case Alpha => 1 case Beta => 2 case Candidate => 3, v.pre.value.number)
    else if v.post == None && v.dev.Some? then (0, 0)
    else (4, 0)
  }

  function PostRank(v: Version): int {
    if v.post.Some? then v.post.value else -1
  }

  /** A development release comes before the version it leads to. */
  function DevRank(v: Version): (int, int) {
    if v.dev.Some? then (0, v.dev.value) else (1, 0)
  }

  function ComparePair(a: (int, int), b: (int, int)): int {
    if a.0 != b.0 then Sign(a.0 - b.0) else Sign(a.1 - b.1)
  }

  /** The public parts of the order; versions that differ only in their local part compare equal here. */
  function ComparePublic(v: Version, w: Version): int {
    if v.epoch != w.epoch then Sign(v.epoch as int - w.epoch)
    else if CompareRelease(v.release, w.release, 0) != 0 then CompareRelease(v.release, w.release, 0)
    else if ComparePair(PreRank(v), PreRank(w)) != 0 then ComparePair(PreRank(v), PreRank(w))
    else if PostRank(v) != PostRank(w) then Sign(PostRank(v) - PostRank(w))
    else ComparePair(DevRank(v), DevRank(w))
  }

  lemma ReleaseOfThree(x: nat, y: nat, z: nat, x': nat, y': nat, z': nat)
    ensures CompareRelease([x, y, z], [x', y', z'], 0)
         == if x != x' then Sign(x as int - x') else if y != y' then Sign(y as int - y') else Sign(z as int - z')
  {
    var a, b := [x, y, z], [x', y', z'];
    assert Part(a, 0) == x && Part(b, 0) == x' && Part(a, 1) == y && Part(b, 1) == y' && Part(a, 2) == z && Part(b, 2) == z';
    SameBeyond(a, b, 3);
    assert CompareRelease(a, b, 2) == Sign(z as int - z');
    assert CompareRelease(a, b, 1) == if y != y' then Sign(y as int - y') else CompareRelease(a, b, 2);
  }

  lemma {:induction false} SameBeyond(a: seq<nat>, b: seq<nat>, i: nat)
    requires |a| <= i && |b| <= i
    ensures CompareRelease(a, b, i) == 0
    decreases |a| + |b| - i
  {
    if i < |a| + |b| {
      SameBeyond(a, b, i + 1);
    }
  }

  /** The order of two scheme versions, spelt out. */
  function CompareSchemes(s: Scheme, t: Scheme): int {
    if s.major != t.major then Sign(s.major as int - t.major)
    else if s.minor != t.minor then Sign(s.minor as int - t.minor)
    else if s.patch != t.patch then Sign(s.patch as int - t.patch)
    else if s.Stable? then (if t.Stable? then 0 else 1)
    else if t.Stable? then -1
    else Sign(s.beta as int - t.beta)
  }

  lemma SchemeOrderIsVersionOrder(s: Scheme, t: Scheme)
    ensures ComparePublic(VersionOf(s), VersionOf(t)) == CompareSchemes(s, t)
  {
    hide CompareRelease();
    ReleaseOfThree(s.major, s.minor, s.patch, t.major, t.minor, t.patch);
  }

  /** The successor comes later, and no stable or beta version lies between. */
  lemma SuccessorIsNext(s: Scheme, t: Scheme)
    ensures ComparePublic(VersionOf(s), VersionOf(Successor(s))) < 0
    ensures !(ComparePublic(VersionOf(s), VersionOf(t)) < 0 && ComparePublic(VersionOf(t), VersionOf(Successor(s))) < 0)
  {
    hide ComparePublic(), VersionOf();
    SchemeOrderIsVersionOrder(s, Successor(s));
    SchemeOrderIsVersionOrder(s, t);
    SchemeOrderIsVersionOrder(t, Successor(s));
  }

  /** Every stable or beta version in its normal form is recognised and advanced by its rule. */
  lemma EverySchemeVersionAdvances(s: Scheme)
    ensures Classify(SchemeText(s))
         == Ok((if s.BetaLine? then BetaRelease else StableRelease, SchemeText(Successor(s))))
  {
    hide Parse(), MatchScheme(), SchemeText(), VersionOf(), Canonical(), Legal();
    SchemeTextIsCanonical(s);
    SchemeTextMatches(s);
    CanonicalReads(VersionOf(s));
  }

  /**
   * The version proposed after a stable or beta one is canonical, a beta itself, later in the order
   * of versions, and the closest one the scheme could have proposed.
   */
  lemma ProposedVersionIsTheNextBeta(version: string, t: Scheme)
    requires Classify(version).Ok? && Classify(version).value.0 != OtherRelease
    ensures var next := Classify(version).value.1;
      && Classify(next).Ok? && Classify(next).value.0 == BetaRelease
      && NormalForm(next) == Some(next) && Parse(version).Some? && Parse(next).Some?
      && ComparePublic(Parse(version).value, Parse(next).value) < 0
      && !(ComparePublic(Parse(version).value, VersionOf(t)) < 0
           && ComparePublic(VersionOf(t), Parse(next).value) < 0)
  {
    hide Parse(), MatchScheme(), SchemeText(), ComparePublic(), VersionOf(), Canonical(), Legal();
    var s := MatchScheme(version).value;
    MatchedSchemeParses(version);
    var next := Successor(s);
    SchemeTextIsCanonical(next);
    SchemeTextMatches(next);
    CanonicalReads(VersionOf(next));
    SuccessorIsNext(s, t);
  }
}
