/** The spellings PEP 440 admits, the version each stands for, and that exactly these are read. */
module PythonSpelling {
  import opened PythonVersion

  /** A marked number: an optional separator, a word, an optional separator, optional digits. */
  datatype Marked = Marked(lead: string, word: string, gap: string, digits: string)

  /** A post release is also spelt as a hyphen and digits. */
  datatype PostSpelling = Hyphen(digits: string) | Worded(mark: Marked)

  /** A further segment of the local part, after its separator. */
  datatype Further = Further(separator: char, segment: string)

  datatype LocalSpelling = LocalSpelling(first: string, more: seq<Further>)

  /** Everything but letter case. */
  datatype Spelling = Spelling(
    before: string,
    v: bool,
    epoch: Option<string>,
    first: string,
    more: seq<string>,
    pre: Option<Marked>,
    post: Option<PostSpelling>,
    dev: Option<Marked>,
    local: Option<LocalSpelling>,
    after: string)

  function PreLabel(word: string): Option<Label> {
    if word == "alpha" || word == "a" then Some(Alpha)
    else if word == "beta" || word == "b" then Some(Beta)
    else if word == "preview" || word == "pre" || word == "c" || word == "rc" then Some(Candidate)
    else None
  }

  predicate IsPostWord(word: string) {
    word == "post" || word == "rev" || word == "r"
  }

  predicate OptionalSeparator(text: string) {
    text == "" || text == "-" || text == "_" || text == "."
  }

  predicate OptionalNumeral(text: string) {
    text == "" || IsNumeral(text)
  }

  predicate MarkedOk(m: Marked) {
    OptionalSeparator(m.lead) && OptionalSeparator(m.gap) && OptionalNumeral(m.digits)
  }

  predicate AllSpaces(text: string) {
    forall c <- text :: IsSpace(c)
  }

  predicate PostOk(post: Option<PostSpelling>) {
    match post
    case None => true
    case Some(Hyphen(digits)) => IsNumeral(digits)
    case Some(Worded(mark)) => MarkedOk(mark) && IsPostWord(mark.word)
  }

  ghost predicate LocalOk(local: LocalSpelling) {
    IsSegment(local.first) && AllFurther(local.more)
  }

  ghost predicate AllFurther(more: seq<Further>) {
    forall f <- more :: f.separator in {'-', '_', '.'} && IsSegment(f.segment)
  }

  /** The grammar of the pattern. */
  ghost predicate InGrammar(s: Spelling) {
    && AllSpaces(s.before) && AllSpaces(s.after)
    && (s.epoch.Some? ==> IsNumeral(s.epoch.value))
    && IsNumeral(s.first) && (forall part <- s.more :: IsNumeral(part))
    && (s.pre.Some? ==> MarkedOk(s.pre.value) && PreLabel(s.pre.value.word).Some?)
    && PostOk(s.post)
    && (s.dev.Some? ==> MarkedOk(s.dev.value) && s.dev.value.word == "dev")
    && (s.local.Some? ==> LocalOk(s.local.value))
  }

  predicate HyphenAfterBareWord(s: Spelling) {
    s.pre.Some? && Bare(s.pre.value) && s.post.Some? && s.post.value.Hyphen?
  }

  /** A hyphen and digits right after a bare pre-release word are that word's number, not a post release. */
  ghost predicate Admitted(s: Spelling) {
    InGrammar(s) && !HyphenAfterBareWord(s)
  }

  // ---- the text of a spelling, in lower case ----

  function MarkedText(m: Option<Marked>): string {
    if m.Some? then m.value.lead + (m.value.word + (m.value.gap + m.value.digits)) else ""
  }

  function PostSpelt(post: Option<PostSpelling>): string {
    match post
    case None => ""
    case Some(Hyphen(digits)) => "-" + digits
    case Some(Worded(mark)) => MarkedText(Some(mark))
  }

  function PartsText(parts: seq<string>): string {
    if parts == [] then "" else "." + parts[0] + PartsText(parts[1..])
  }

  function FurtherText(more: seq<Further>): string {
    if more == [] then "" else [more[0].separator] + more[0].segment + FurtherText(more[1..])
  }

  function LocalSpelt(local: Option<LocalSpelling>): string {
    if local.Some? then "+" + local.value.first + FurtherText(local.value.more) else ""
  }

  function AfterDevText(s: Spelling): string {
    LocalSpelt(s.local) + s.after
  }

  function AfterPostText(s: Spelling): string {
    MarkedText(s.dev) + AfterDevText(s)
  }

  function AfterPreText(s: Spelling): string {
    PostSpelt(s.post) + AfterPostText(s)
  }

  function AfterReleaseText(s: Spelling): string {
    MarkedText(s.pre) + AfterPreText(s)
  }

  function NumbersText(s: Spelling): string {
    (if s.epoch.Some? then s.epoch.value + "!" else "") + (s.first + (PartsText(s.more) + AfterReleaseText(s)))
  }

  function Spelt(s: Spelling): string {
    s.before + ((if s.v then "v" else "") + NumbersText(s))
  }

  // ---- the version it spells ----

  function NumberOr0(digits: string): nat
    requires OptionalNumeral(digits)
  {
    if digits == "" then 0 else Number(digits)
  }

  function Numbers(parts: seq<string>): (numbers: seq<nat>)
    requires forall part <- parts :: IsNumeral(part)
    ensures |numbers| == |parts|
  {
    if parts == [] then []
    else
      assert IsNumeral(parts[0]);
      [Number(parts[0])] + Numbers(parts[1..])
  }

  function SegmentsOf(more: seq<Further>): seq<string> {
    if more == [] then [] else [more[0].segment] + SegmentsOf(more[1..])
  }

  function Meaning(s: Spelling): Version
    requires Admitted(s)
  {
    Version(
      if s.epoch.Some? then Number(s.epoch.value) else 0,
      [Number(s.first)] + Numbers(s.more),
      if s.pre.Some? then Some(Pre(PreLabel(s.pre.value.word).value, NumberOr0(s.pre.value.digits))) else None,
      PostMeaning(s.post),
      if s.dev.Some? then Some(NumberOr0(s.dev.value.digits)) else None,
      if s.local.Some? then Some([s.local.value.first] + SegmentsOf(s.local.value.more)) else None)
  }

  // ---- where each part may begin ----

  predicate LocalStarts(t: string) {
    t == "" || t[0] == '+' || IsSpace(t[0])
  }

  predicate DevStarts(t: string) {
    LocalStarts(t) || "dev" <= SkipSeparator(t)
  }

  /** An `r` here is never the beginning of `rc`. */
  predicate PostWordStarts(t: string) {
    var w := SkipSeparator(t);
    DevStarts(t) || "post" <= w || ("r" <= w && (|w| > 1 ==> w[1] != 'c'))
  }

  predicate HyphenStarts(t: string) {
    |t| > 1 && t[0] == '-' && IsDigit(t[1])
  }

  /** No digit, and no letter that would lengthen a word, is first. */
  predicate EndsWord(t: string) {
    t == "" || t[0] in {'-', '_', '.', '+', 'd', 'p', 'r'} || IsSpace(t[0]) || IsDigit(t[0])
  }

  // ---- reading a marked number ----

  predicate Bare(m: Marked) {
    m.gap == "" && m.digits == ""
  }

  /** What is left of `t` after `m`: a bare word takes the separator that follows it. */
  function Left(m: Option<Marked>, t: string): string {
    if m.Some? && Bare(m.value) then SkipSeparator(t) else t
  }

  /** Nothing that a bare word's number could start with. */
  ghost predicate NoNumberNext(t: string) {
    NoDigit(t) && NoDigit(SkipSeparator(t))
  }

  lemma NumeralStarts(digits: string, rest: string)
    requires IsNumeral(digits)
    ensures digits + rest != "" && IsDigit((digits + rest)[0]) && SkipSeparator(digits + rest) == digits + rest
  {
    assert IsDigit(digits[0]);
  }

  lemma NoNumberReads(t: string)
    requires NoDigit(t)
    ensures ReadNumber(t) == None && ReadOptionalNumber(t) == (0, t)
  {
  }

  lemma GapReads(m: Marked, t: string)
    requires MarkedOk(m) && NoDigit(t) && (Bare(m) ==> NoNumberNext(t))
    ensures ReadOptionalNumber(SkipSeparator(m.gap + m.digits + t)) == (NumberOr0(m.digits), Left(Some(m), t))
  {
    hide ReadNumber, Number, ReadOptionalNumber, IsNumeral;
    if m.digits == "" {
      EmptyGapReads(m, t);
    } else {
      var rest := m.digits + t;
      assert m.gap + m.digits + t == m.gap + rest;
      NumeralStarts(m.digits, t);
      NumeralThen(m.digits, t);
      GapSkipped(m.gap, rest);
    }
  }

  lemma GapSkipped(gap: string, rest: string)
    requires OptionalSeparator(gap) && SkipSeparator(rest) == rest
    ensures SkipSeparator(gap + rest) == rest
  {
    if gap == "" {
      assert gap + rest == rest;
    } else {
      assert (gap + rest)[1..] == rest;
    }
  }

  lemma EmptyGapReads(m: Marked, t: string)
    requires MarkedOk(m) && m.digits == "" && NoDigit(t) && (Bare(m) ==> NoNumberNext(t))
    ensures ReadOptionalNumber(SkipSeparator(m.gap + m.digits + t)) == (0, Left(Some(m), t))
  {
    hide ReadNumber, ReadOptionalNumber, NoDigit, IsNumeral;
    assert m.gap + m.digits == m.gap;
    EmptyGapSkipped(m, t);
    NoNumberReads(Left(Some(m), t));
  }

  lemma EmptyGapSkipped(m: Marked, t: string)
    requires MarkedOk(m) && m.digits == ""
    ensures SkipSeparator(m.gap + t) == Left(Some(m), t)
  {
    if m.gap == "" {
      assert m.gap + t == t;
    } else {
      assert (m.gap + t)[1..] == t;
    }
  }

  /** The word of a marked number is found after its lead, whether or not that was already taken. */
  lemma WordFound(m: Marked, t: string, u: string)
    requires MarkedOk(m) && m.word != "" && !IsSeparator(m.word[0])
    requires u == MarkedText(Some(m)) + t || u == SkipSeparator(MarkedText(Some(m)) + t)
    ensures SkipSeparator(u) == m.word + (m.gap + m.digits + t)
    ensures u != "" && u[0] == '-' ==> u[1..] == m.word + (m.gap + m.digits + t)
  {
    var rest := m.word + (m.gap + m.digits + t);
    assert MarkedText(Some(m)) + t == m.lead + rest;
    assert rest[0] == m.word[0];
    if m.lead == "" {
      assert m.lead + rest == rest;
    } else {
      assert (m.lead + rest)[1..] == rest;
    }
  }

  /** What follows a word never lengthens it. */
  lemma WordEnds(m: Marked, t: string)
    requires MarkedOk(m) && EndsWord(t)
    ensures EndsWord(m.gap + m.digits + t)
  {
    if m.digits != "" {
      NumeralStarts(m.digits, t);
      assert m.gap == "" ==> m.gap + m.digits + t == m.digits + t;
    } else if m.gap == "" {
      assert m.gap + m.digits + t == t;
    }
  }

  // ---- the local part ----

  lemma {:induction false} FurtherReads(more: seq<Further>, after: string)
    requires AllFurther(more) && AllSpaces(after)
    ensures ReadMoreLocal(FurtherText(more) + after) == (SegmentsOf(more), after)
    ensures FurtherText(more) + after == "" || !IsAlnum((FurtherText(more) + after)[0])
  {
    hide LeadingAlnum, IsSegment, ReadMoreLocal;
    if more == [] {
      assert FurtherText(more) + after == after;
      NoFurther(after);
    } else {
      FurtherReads(more[1..], after);
      OneFurther(more[0], FurtherText(more[1..]) + after);
      assert FurtherText(more) + after == [more[0].separator] + (more[0].segment + (FurtherText(more[1..]) + after));
    }
  }

  lemma NoFurther(after: string)
    requires AllSpaces(after)
    ensures ReadMoreLocal(after) == ([], after) && (after == "" || !IsAlnum(after[0]))
  {
    assert after != "" ==> IsSpace(after[0]);
  }

  lemma OneFurther(f: Further, rest: string)
    requires IsSeparator(f.separator) && IsSegment(f.segment) && (rest == "" || !IsAlnum(rest[0]))
    ensures ReadMoreLocal([f.separator] + (f.segment + rest))
         == ([f.segment] + ReadMoreLocal(rest).0, ReadMoreLocal(rest).1)
  {
    hide LeadingAlnum, IsSegment;
    SegmentThen(f.segment, rest);
    assert ([f.separator] + (f.segment + rest))[1..] == f.segment + rest;
  }

  lemma SegmentThen(segment: string, rest: string)
    requires IsSegment(segment) && (rest == "" || !IsAlnum(rest[0]))
    ensures LeadingAlnum(segment + rest) == |segment| > 0
    ensures (segment + rest)[..|segment|] == segment && (segment + rest)[|segment|..] == rest
  {
    AlnumThen(segment, rest);
  }

  lemma LocalSpeltReads(s: Spelling)
    requires (s.local.Some? ==> LocalOk(s.local.value)) && AllSpaces(s.after)
    ensures ReadLocal(AfterDevText(s))
         == (if s.local.Some? then Some([s.local.value.first] + SegmentsOf(s.local.value.more)) else None, s.after)
    ensures LocalStarts(AfterDevText(s))
  {
    hide LeadingAlnum, IsSegment, ReadMoreLocal, FurtherText;
    var text := AfterDevText(s);
    if s.local == None {
      assert text == s.after;
      assert s.after != "" ==> IsSpace(s.after[0]);
    } else {
      var local := s.local.value;
      var rest := FurtherText(local.more) + s.after;
      FurtherReads(local.more, s.after);
      SegmentThen(local.first, rest);
      assert text == "+" + (local.first + rest);
      assert text[1..] == local.first + rest;
    }
  }

  // ---- the development part ----

  lemma DevSpeltReads(dev: Option<Marked>, t: string, u: string)
    requires (dev.Some? ==> MarkedOk(dev.value) && dev.value.word == "dev") && LocalStarts(t)
    requires u == MarkedText(dev) + t || u == SkipSeparator(MarkedText(dev) + t)
    ensures ReadDev(u) == (if dev.Some? then Some(NumberOr0(dev.value.digits)) else None, t)
  {
    hide ReadOptionalNumber, NumberOr0, MarkedText;
    if dev.Some? {
      var rest := dev.value.gap + dev.value.digits + t;
      WordFound(dev.value, t, u);
      GapReads(dev.value, t);
      assert ("dev" + rest)[3..] == rest;
    } else {
      NoMark(t);
      OtherWord(u, "dev", 0);
    }
  }

  lemma NoMark(t: string)
    ensures MarkedText(None) + t == t
  {
  }

  lemma DevSpeltStarts(dev: Option<Marked>, t: string)
    requires (dev.Some? ==> MarkedOk(dev.value) && dev.value.word == "dev") && LocalStarts(t)
    ensures DevStarts(MarkedText(dev) + t)
  {
    hide MarkedText;
    if dev.Some? {
      WordFound(dev.value, t, MarkedText(dev) + t);
    } else {
      NoMark(t);
    }
  }

  // ---- the post-release part ----

  lemma PostLabelFound(word: string, rest: string)
    requires IsPostWord(word) && EndsWord(rest)
    ensures ReadPostLabel(word + rest) == Some(rest)
  {
    var text := word + rest;
    assert text[|word|..] == rest;
    if word != "post" {
      OtherWord(text, "post", 0);
    }
    if word == "r" {
      assert rest != "" ==> text[1] == rest[0];
      OtherWord(text, "rev", 1);
    }
  }

  lemma DevStartEndsWord(t: string)
    requires DevStarts(t)
    ensures EndsWord(t) && NoNumberNext(t) && (t != "" ==> t[0] != '!')
    ensures !(t != "" && t[0] == '-' && ReadNumber(t[1..]).Some?)
  {
    hide ReadNumber;
    if !LocalStarts(t) {
      assert SkipSeparator(t)[0] == 'd';
      NoNumberReads(SkipSeparator(t));
    }
  }

  lemma NoPostSpelt(t: string)
    requires DevStarts(t)
    ensures ReadPost(t) == (None, t) && ReadPost(SkipSeparator(t)) == (None, SkipSeparator(t))
  {
    hide ReadNumber, ReadOptionalNumber;
    DevStartEndsWord(t);
    var w := SkipSeparator(t);
    assert w != "" ==> w[0] in {'d', '+'} || IsSpace(w[0]);
    OtherWord(w, "post", 0);
    OtherWord(w, "rev", 0);
    OtherWord(w, "r", 0);
  }

  function PostMeaning(post: Option<PostSpelling>): Option<nat>
    requires PostOk(post)
  {
    match post
    case None => None
    case Some(Hyphen(digits)) => Some(Number(digits))
    case Some(Worded(mark)) => Some(NumberOr0(mark.digits))
  }

  function PostMark(post: Option<PostSpelling>): Option<Marked> {
    match post
    case Some(Worded(mark)) => Some(mark)
    case _ => None
  }

  lemma WordedReads(m: Marked, t: string, u: string)
    requires MarkedOk(m) && IsPostWord(m.word) && DevStarts(t)
    requires u == MarkedText(Some(m)) + t || u == SkipSeparator(MarkedText(Some(m)) + t)
    ensures ReadPost(u) == (Some(NumberOr0(m.digits)), Left(Some(m), t))
  {
    hide ReadOptionalNumber, NumberOr0, MarkedText, ReadNumber, ReadPostLabel, DevStarts;
    var rest := m.gap + m.digits + t;
    WordFound(m, t, u);
    DevStartEndsWord(t);
    WordEnds(m, t);
    PostLabelFound(m.word, rest);
    GapReads(m, t);
    assert (m.word + rest)[0] == m.word[0];
    NoNumberReads(m.word + rest);
  }

  lemma HyphenReads(digits: string, t: string)
    requires IsNumeral(digits) && NoDigit(t)
    ensures ReadPost("-" + digits + t) == (Some(Number(digits)), t)
    ensures HyphenStarts("-" + digits + t)
  {
    hide ReadNumber, Number, ReadPostLabel;
    assert ("-" + digits + t)[1..] == digits + t;
    NumeralThen(digits, t);
    NumeralStarts(digits, t);
  }

  lemma PostSpeltReads(post: Option<PostSpelling>, t: string, u: string)
    requires PostOk(post) && DevStarts(t)
    requires u == PostSpelt(post) + t || (u == SkipSeparator(PostSpelt(post) + t) && (post.Some? ==> post.value.Worded?))
    ensures ReadPost(u) == (PostMeaning(post), if post == None then u else Left(PostMark(post), t))
  {
    hide ReadPost, NumberOr0, Number, MarkedText, DevStarts;
    match post
    case None =>
      assert PostSpelt(post) + t == t;
      NoPostSpelt(t);
    case Some(Hyphen(digits)) =>
      DevStartEndsWord(t);
      HyphenReads(digits, t);
    case Some(Worded(mark)) =>
      WordedReads(mark, t, u);
  }

  lemma PostSpeltStarts(post: Option<PostSpelling>, t: string)
    requires PostOk(post) && DevStarts(t)
    ensures PostWordStarts(PostSpelt(post) + t) || (post.Some? && post.value.Hyphen? && HyphenStarts(PostSpelt(post) + t))
  {
    hide MarkedText, DevStarts, ReadPost;
    DevStartEndsWord(t);
    match post
    case None =>
      assert PostSpelt(post) + t == t;
    case Some(Hyphen(digits)) =>
      HyphenReads(digits, t);
    case Some(Worded(mark)) =>
      var rest := mark.gap + mark.digits + t;
      WordFound(mark, t, MarkedText(Some(mark)) + t);
      WordEnds(mark, t);
      assert mark.word <= mark.word + rest;
      assert mark.word == "r" && rest != "" ==> (mark.word + rest)[1] == rest[0];
  }

  // ---- the pre-release part ----

  lemma LabelFound(word: string, rest: string)
    requires PreLabel(word).Some? && EndsWord(rest)
    ensures ReadLabel(word + rest) == Some((PreLabel(word).value, rest))
  {
    hide EndsWord, ReadLabel;
    match PreLabel(word).value
    case Alpha => AlphaFound(word, rest);
    case Beta => BetaFound(word, rest);
    case Candidate => CandidateFound(word, rest);
  }

  lemma AlphaFound(word: string, rest: string)
    requires (word == "alpha" || word == "a") && EndsWord(rest)
    ensures ReadLabel(word + rest) == Some((Alpha, rest))
  {
    var text := word + rest;
    assert text[|word|..] == rest;
    if word == "a" {
      assert rest != "" ==> text[1] == rest[0];
      OtherWord(text, "alpha", 1);
    }
  }

  lemma NotAlpha(text: string)
    requires text != "" && text[0] != 'a'
    ensures !("alpha" <= text) && !("a" <= text)
  {
    OtherWord(text, "alpha", 0);
    OtherWord(text, "a", 0);
  }

  lemma BetaFound(word: string, rest: string)
    requires (word == "beta" || word == "b") && EndsWord(rest)
    ensures ReadLabel(word + rest) == Some((Beta, rest))
  {
    var text := word + rest;
    assert text[|word|..] == rest;
    NotAlpha(text);
    if word == "b" {
      assert rest != "" ==> text[1] == rest[0];
      OtherWord(text, "beta", 1);
    }
  }

  lemma CandidateFound(word: string, rest: string)
    requires PreLabel(word) == Some(Candidate) && EndsWord(rest)
    ensures ReadLabel(word + rest) == Some((Candidate, rest))
  {
    hide EndsWord;
    var text := word + rest;
    assert text[|word|..] == rest && text[0] == word[0];
    NotAlpha(text);
    OtherWord(text, "beta", 0);
    OtherWord(text, "b", 0);
    OtherLabel(word, rest);
    assert word <= text;
  }

  lemma OtherLabel(word: string, rest: string)
    requires PreLabel(word) == Some(Candidate) && EndsWord(rest)
    ensures word == "pre" ==> !("preview" <= word + rest)
    ensures word == "c" || word == "rc" ==> !("preview" <= word + rest) && !("pre" <= word + rest)
    ensures word == "rc" ==> !("c" <= word + rest)
  {
    var text := word + rest;
    if word == "pre" {
      assert rest != "" ==> text[3] == rest[0];
      OtherWord(text, "preview", 3);
    } else if word != "preview" {
      OtherWord(text, "preview", 0);
      OtherWord(text, "pre", 0);
      if word == "rc" { OtherWord(text, "c", 0); }
    }
  }

  lemma PostStartEndsWord(t: string)
    requires PostWordStarts(t) || HyphenStarts(t)
    ensures EndsWord(t) && NoDigit(t) && (t != "" ==> t[0] != '!')
    ensures PostWordStarts(t) ==> NoNumberNext(t)
  {
    var w := SkipSeparator(t);
    if !HyphenStarts(t) && !LocalStarts(t) {
      assert w != "" && w[0] in {'p', 'r', 'd'};
    }
  }

  lemma NoPreSpelt(t: string)
    requires PostWordStarts(t) || HyphenStarts(t)
    ensures ReadPre(t) == (None, t)
  {
    hide ReadLabel, ReadOptionalNumber;
    NoLabelSpelt(SkipSeparator(t));
  }

  lemma NoLabelSpelt(w: string)
    requires w == "" || w[0] in {'d', '+'} || IsSpace(w[0]) || IsDigit(w[0]) || "post" <= w || ("r" <= w && (|w| > 1 ==> w[1] != 'c'))
    ensures ReadLabel(w) == None
  {
    OtherWord(w, "alpha", 0);
    OtherWord(w, "a", 0);
    OtherWord(w, "beta", 0);
    OtherWord(w, "b", 0);
    OtherWord(w, "c", 0);
    if "post" <= w {
      assert w[1] == 'o';
      OtherWord(w, "preview", 1);
      OtherWord(w, "pre", 1);
      OtherWord(w, "rc", 0);
    } else {
      OtherWord(w, "preview", 0);
      OtherWord(w, "pre", 0);
      if "r" <= w { OtherWord(w, "rc", 1); } else { OtherWord(w, "rc", 0); }
    }
  }

  lemma PreSpeltReads(m: Marked, t: string)
    requires MarkedOk(m) && PreLabel(m.word).Some?
    requires PostWordStarts(t) || (HyphenStarts(t) && !Bare(m))
    ensures ReadPre(MarkedText(Some(m)) + t)
         == (Some(Pre(PreLabel(m.word).value, NumberOr0(m.digits))), Left(Some(m), t))
  {
    hide ReadLabel, ReadOptionalNumber, NumberOr0, MarkedText, PostWordStarts;
    var rest := m.gap + m.digits + t;
    WordFound(m, t, MarkedText(Some(m)) + t);
    PostStartEndsWord(t);
    WordEnds(m, t);
    LabelFound(m.word, rest);
    GapReads(m, t);
  }

  function PreMeaning(pre: Option<Marked>): Option<Pre>
    requires pre.Some? ==> MarkedOk(pre.value) && PreLabel(pre.value.word).Some?
  {
    if pre.Some? then Some(Pre(PreLabel(pre.value.word).value, NumberOr0(pre.value.digits))) else None
  }

  lemma PreSpeltOrNone(pre: Option<Marked>, t: string)
    requires pre.Some? ==> MarkedOk(pre.value) && PreLabel(pre.value.word).Some?
    requires PostWordStarts(t) || (HyphenStarts(t) && (pre.Some? ==> !Bare(pre.value)))
    ensures ReadPre(MarkedText(pre) + t) == (PreMeaning(pre), Left(pre, t))
  {
    hide ReadPre, MarkedText, NumberOr0, PostWordStarts, HyphenStarts;
    if pre.Some? {
      PreSpeltReads(pre.value, t);
    } else {
      NoMark(t);
      NoPreSpelt(t);
    }
  }

  // ---- the release and what comes before ----

  lemma NoMoreRelease(t: string)
    requires NoDigit(t) && (t != "" && t[0] == '.' ==> NoDigit(SkipSeparator(t)))
    ensures ReadMoreRelease(t) == ([], t)
  {
    if t != "" && t[0] == '.' {
      NoNumberReads(t[1..]);
    }
  }

  lemma TailEndsRelease(pre: Option<Marked>, t: string)
    requires pre.Some? ==> MarkedOk(pre.value) && PreLabel(pre.value.word).Some?
    requires PostWordStarts(t) || HyphenStarts(t)
    ensures var text := MarkedText(pre) + t;
      NoDigit(text) && (text != "" ==> text[0] != '!') && ReadMoreRelease(text) == ([], text)
  {
    hide MarkedText, PostWordStarts, ReadMoreRelease;
    var text := MarkedText(pre) + t;
    if pre.Some? {
      WordFound(pre.value, t, text);
      assert SkipSeparator(text)[0] == pre.value.word[0];
    } else {
      NoMark(t);
      PostStartEndsWord(t);
    }
    NoMoreRelease(text);
  }

  lemma {:induction false} PartsRead(parts: seq<string>, t: string)
    requires forall part <- parts :: IsNumeral(part)
    requires NoDigit(t) && (t != "" ==> t[0] != '!') && ReadMoreRelease(t) == ([], t)
    ensures ReadMoreRelease(PartsText(parts) + t) == (Numbers(parts), t)
    ensures NoDigit(PartsText(parts) + t) && (PartsText(parts) + t != "" ==> (PartsText(parts) + t)[0] != '!')
  {
    hide ReadMoreRelease, Number;
    if parts == [] {
      assert PartsText(parts) + t == t;
    } else {
      var rest := PartsText(parts[1..]) + t;
      assert IsNumeral(parts[0]);
      PartsRead(parts[1..], t);
      ComponentReads(parts[0], rest);
      assert PartsText(parts) + t == "." + (parts[0] + rest);
    }
  }

  lemma EpochSpeltReads(epoch: Option<string>, first: string, rest: string)
    requires (epoch.Some? ==> IsNumeral(epoch.value)) && IsNumeral(first)
    requires NoDigit(rest) && (rest != "" ==> rest[0] != '!')
    ensures var text := (if epoch.Some? then epoch.value + "!" else "") + (first + rest);
      && ReadEpoch(text) == (if epoch.Some? then Number(epoch.value) else 0, first + rest)
      && text != "" && IsDigit(text[0])
  {
    hide ReadNumber, Number;
    var more := first + rest;
    NumeralThen(first, rest);
    NumeralStarts(first, rest);
    if epoch.Some? {
      var text := epoch.value + "!" + more;
      assert text == epoch.value + ("!" + more);
      NumeralThen(epoch.value, "!" + more);
      NumeralStarts(epoch.value, "!" + more);
      assert ("!" + more)[1..] == more;
    } else {
      assert "" + more == more;
    }
  }

  lemma {:induction false} SpacesSkipped(before: string, t: string)
    requires AllSpaces(before) && (t == "" || !IsSpace(t[0]))
    ensures SkipSpaces(before + t) == t
  {
    if before == "" {
      assert before + t == t;
    } else {
      assert IsSpace(before[0]);
      assert (before + t)[1..] == before[1..] + t;
      SpacesSkipped(before[1..], t);
    }
  }

  lemma OpeningSkipped(before: string, v: bool, t: string)
    requires AllSpaces(before) && t != "" && IsDigit(t[0])
    ensures SkipV(SkipSpaces(before + ((if v then "v" else "") + t))) == t
  {
    var unspaced := (if v then "v" else "") + t;
    SpacesSkipped(before, unspaced);
    assert v ==> unspaced[1..] == t;
    assert !v ==> unspaced == t;
  }

  // ---- the whole spelling ----

  lemma TailSpeltReads(s: Spelling, epoch: nat, release: seq<nat>)
    requires Admitted(s)
    ensures var m := Meaning(s);
      ReadTail(epoch, release, AfterReleaseText(s)) == Some(Version(epoch, release, m.pre, m.post, m.dev, m.local))
    ensures var text := AfterReleaseText(s);
      NoDigit(text) && (text != "" ==> text[0] != '!') && ReadMoreRelease(text) == ([], text)
  {
    hide ReadPre, ReadPost, ReadDev, ReadLocal, MarkedText, PostSpelt, DevStarts, HyphenStarts, PostWordStarts, ReadMoreRelease;
    hide NumberOr0, MarkedOk, AllSpaces, LocalOk, AfterDevText, IsNumeral, Number, Numbers, SegmentsOf;
    var t0, t1, t2 := AfterDevText(s), AfterPostText(s), AfterPreText(s);
    LocalSpeltReads(s);
    DevSpeltStarts(s.dev, t0);
    PostSpeltStarts(s.post, t1);
    PreSpeltOrNone(s.pre, t2);
    TailEndsRelease(s.pre, t2);
    PostSpeltReads(s.post, t1, Left(s.pre, t2));
    assert s.post == None ==> t2 == t1 by { NoPostText(t1); }
    DevSpeltReads(s.dev, t0, ReadPost(Left(s.pre, t2)).1);
    OnlySpaces(s.after);
  }

  lemma NoPostText(t: string)
    ensures PostSpelt(None) + t == t
  {
  }

  lemma OnlySpaces(after: string)
    requires AllSpaces(after)
    ensures SkipSpaces(after) == ""
  {
    SpacesSkipped(after, "");
    assert after + "" == after;
  }

  /** Every admitted spelling, in capitals or not, is read as the version it spells. */
  lemma SpellingReads(s: Spelling, text: string)
    requires Admitted(s) && Lower(text) == Spelt(s)
    ensures Parse(text) == Some(Meaning(s))
  {
    hide ReadTail, ReadMoreRelease, ReadEpoch, ReadNumber, AfterReleaseText, PartsText, Number, IsNumeral, SkipV, SkipSpaces, Lower, AllSpaces;
    hide MarkedOk, PostOk, LocalOk;
    TailSpeltReads(s, Meaning(s).epoch, Meaning(s).release);
    PartsRead(s.more, AfterReleaseText(s));
    var rest := PartsText(s.more) + AfterReleaseText(s);
    EpochSpeltReads(s.epoch, s.first, rest);
    NumeralThen(s.first, rest);
    OpeningSkipped(s.before, s.v, NumbersText(s));
  }

  // ---- and nothing else is read ----

  lemma SeparatorSplits(text: string) returns (lead: string)
    ensures OptionalSeparator(lead) && text == lead + SkipSeparator(text)
    ensures lead == "" ==> text == "" || !IsSeparator(text[0])
  {
    lead := if text != "" && IsSeparator(text[0]) then [text[0]] else "";
  }

  lemma OptionalNumberSplits(text: string) returns (digits: string)
    ensures OptionalNumeral(digits) && text == digits + ReadOptionalNumber(text).1
    ensures digits == "" ==> ReadOptionalNumber(text).1 == text
  {
    hide Number, LeadingDigits;
    if ReadNumber(text).Some? {
      var rest;
      digits, rest := NumberSplits(text);
    } else {
      digits := "";
    }
  }

  lemma MarkAssembled(m: Marked, text: string, rest: string, u: string)
    requires text == m.lead + (m.word + rest) && rest == m.gap + (m.digits + u)
    ensures text == MarkedText(Some(m)) + u
  {
    assert m.word + rest == m.word + (m.gap + m.digits) + u;
  }

  /** Takes a word and its number apart. A bare word is not followed by a separator. */
  lemma MarkSplits(text: string, word: string, rest: string) returns (m: Marked)
    requires SkipSeparator(text) == word + rest
    ensures MarkedOk(m) && m.word == word
    ensures text == MarkedText(Some(m)) + ReadOptionalNumber(SkipSeparator(rest)).1
    ensures var u := ReadOptionalNumber(SkipSeparator(rest)).1;
      Bare(m) ==> u == "" || !IsSeparator(u[0])
  {
    hide ReadOptionalNumber, IsNumeral, MarkedText, OptionalSeparator;
    var lead := SeparatorSplits(text);
    var gap := SeparatorSplits(rest);
    var digits := OptionalNumberSplits(SkipSeparator(rest));
    m := Marked(lead, word, gap, digits);
    MarkAssembled(m, text, rest, ReadOptionalNumber(SkipSeparator(rest)).1);
    assert Bare(m) ==> SkipSeparator(rest) == rest;
  }

  lemma LabelSplits(text: string) returns (word: string)
    requires ReadLabel(text).Some?
    ensures PreLabel(word).Some? && text == word + ReadLabel(text).value.1
  {
    word := text[..|text| - |ReadLabel(text).value.1|];
  }

  lemma PreSplits(text: string) returns (pre: Option<Marked>)
    ensures pre.Some? ==> MarkedOk(pre.value) && PreLabel(pre.value.word).Some?
    ensures var u := ReadPre(text).1;
      text == MarkedText(pre) + u && (pre.Some? && Bare(pre.value) ==> u == "" || !IsSeparator(u[0]))
  {
    hide ReadLabel, ReadOptionalNumber, MarkedText, PreLabel;
    var found := ReadLabel(SkipSeparator(text));
    if found.Some? {
      var word := LabelSplits(SkipSeparator(text));
      var m := MarkSplits(text, word, found.value.1);
      pre := Some(m);
    } else {
      pre := None;
      NoMark(text);
    }
  }

  lemma PostLabelSplits(text: string) returns (word: string)
    requires ReadPostLabel(text).Some?
    ensures IsPostWord(word) && text == word + ReadPostLabel(text).value
  {
    word := text[..|text| - |ReadPostLabel(text).value|];
  }

  lemma PostSplits(text: string) returns (post: Option<PostSpelling>)
    ensures PostOk(post) && text == PostSpelt(post) + ReadPost(text).1
    ensures post.Some? && post.value.Hyphen? ==> text != "" && IsSeparator(text[0])
  {
    hide ReadNumber, ReadPostLabel, ReadOptionalNumber, MarkedText, Number, IsPostWord;
    var word := ReadPostLabel(SkipSeparator(text));
    if text != "" && text[0] == '-' && ReadNumber(text[1..]).Some? {
      var digits, rest := NumberSplits(text[1..]);
      post := Some(Hyphen(digits));
    } else if word.Some? {
      var spelt := PostLabelSplits(SkipSeparator(text));
      var m := MarkSplits(text, spelt, word.value);
      post := Some(Worded(m));
    } else {
      post := None;
      NoPostText(text);
    }
  }

  lemma DevSplits(text: string) returns (dev: Option<Marked>)
    ensures dev.Some? ==> MarkedOk(dev.value) && dev.value.word == "dev"
    ensures text == MarkedText(dev) + ReadDev(text).1
  {
    hide ReadOptionalNumber, MarkedText;
    var w := SkipSeparator(text);
    if "dev" <= w {
      assert w == "dev" + w[3..];
      var m := MarkSplits(text, "dev", w[3..]);
      dev := Some(m);
    } else {
      dev := None;
      NoMark(text);
    }
  }

  lemma FurtherStep(text: string) returns (f: Further, rest: string)
    requires text != "" && IsSeparator(text[0]) && LeadingAlnum(text[1..]) > 0
    ensures IsSeparator(f.separator) && IsSegment(f.segment)
    ensures text == [f.separator] + (f.segment + rest) && |rest| < |text|
    ensures ReadMoreLocal(text).1 == ReadMoreLocal(rest).1
  {
    hide LeadingAlnum;
    var n := LeadingAlnum(text[1..]);
    f, rest := Further(text[0], text[1..][..n]), text[1..][n..];
    assert text == [text[0]] + text[1..] && text[1..] == f.segment + rest;
  }

  lemma {:induction false} FurtherSplits(text: string) returns (more: seq<Further>)
    ensures AllFurther(more) && text == FurtherText(more) + ReadMoreLocal(text).1
    decreases |text|
  {
    hide LeadingAlnum, IsSegment, FurtherText, ReadMoreLocal, AllFurther;
    if text != "" && IsSeparator(text[0]) && LeadingAlnum(text[1..]) > 0 {
      var f, rest := FurtherStep(text);
      var others := FurtherSplits(rest);
      more := [f] + others;
      FurtherMore(f, others);
    } else {
      more := [];
      NothingFurther(text);
    }
    assert text == FurtherText(more) + ReadMoreLocal(text).1;
  }

  lemma NothingFurther(text: string)
    requires text == "" || !IsSeparator(text[0]) || LeadingAlnum(text[1..]) == 0
    ensures AllFurther([]) && text == FurtherText([]) + ReadMoreLocal(text).1
  {
    hide LeadingAlnum;
  }

  lemma FurtherMore(f: Further, others: seq<Further>)
    requires IsSeparator(f.separator) && IsSegment(f.segment) && AllFurther(others)
    ensures AllFurther([f] + others)
    ensures FurtherText([f] + others) == [f.separator] + f.segment + FurtherText(others)
  {
    hide IsSegment;
    assert ([f] + others)[1..] == others;
  }

  lemma LocalSplits(text: string) returns (local: Option<LocalSpelling>)
    ensures local.Some? ==> LocalOk(local.value)
    ensures text == LocalSpelt(local) + ReadLocal(text).1
  {
    hide LeadingAlnum, ReadMoreLocal, FurtherText, AllFurther, IsSegment;
    if text == "" || text[0] != '+' || LeadingAlnum(text[1..]) == 0 {
      local := None;
    } else {
      var first, rest := FirstSegment(text);
      var more := FurtherSplits(rest);
      local := Some(LocalSpelling(first, more));
    }
  }

  lemma FirstSegment(text: string) returns (first: string, rest: string)
    requires text != "" && text[0] == '+' && LeadingAlnum(text[1..]) > 0
    ensures IsSegment(first) && text == "+" + (first + rest) && ReadLocal(text).1 == ReadMoreLocal(rest).1
  {
    hide LeadingAlnum, ReadMoreLocal;
    var n := LeadingAlnum(text[1..]);
    first, rest := text[1..][..n], text[1..][n..];
    assert text == "+" + text[1..];
  }

  lemma {:induction false} SpacesSplit(text: string) returns (before: string)
    ensures AllSpaces(before) && text == before + SkipSpaces(text)
    decreases |text|
  {
    before := "";
    if text != "" && IsSpace(text[0]) {
      var others := SpacesSplit(text[1..]);
      before := [text[0]] + others;
      assert text == [text[0]] + text[1..];
    }
  }

  lemma EpochSplits(text: string) returns (epoch: Option<string>)
    ensures epoch.Some? ==> IsNumeral(epoch.value)
    ensures text == (if epoch.Some? then epoch.value + "!" else "") + ReadEpoch(text).1
  {
    hide ReadNumber, Number;
    epoch := None;
    if ReadNumber(text).Some? {
      var digits, rest := NumberSplits(text);
      if rest != "" && rest[0] == '!' {
        epoch := Some(digits);
        assert rest == "!" + rest[1..];
      }
    }
  }

  lemma {:induction false} PartsSplit(text: string) returns (parts: seq<string>)
    ensures forall part <- parts :: IsNumeral(part)
    ensures text == PartsText(parts) + ReadMoreRelease(text).1
    decreases |text|
  {
    hide ReadNumber, Number, IsNumeral, PartsText;
    if text != "" && text[0] == '.' && ReadNumber(text[1..]).Some? {
      var digits, rest := NumberSplits(text[1..]);
      var others := PartsSplit(rest);
      parts := [digits] + others;
      OnePartMore(digits, others);
      assert text == "." + (digits + rest);
    } else {
      parts := [];
      assert PartsText([]) + text == text by { NoParts(text); }
    }
  }

  lemma NoParts(text: string)
    ensures PartsText([]) + text == text
  {
  }

  lemma OnePartMore(digits: string, others: seq<string>)
    ensures PartsText([digits] + others) == "." + digits + PartsText(others)
  {
    assert ([digits] + others)[1..] == others;
  }

  /** The parts of the text behind the release. */
  lemma TailSplits(s: Spelling, text: string) returns (t: Spelling)
    requires ReadTail(0, [], text).Some?
    requires AllSpaces(s.before) && (s.epoch.Some? ==> IsNumeral(s.epoch.value))
    requires IsNumeral(s.first) && (forall part <- s.more :: IsNumeral(part))
    ensures Admitted(t) && AfterReleaseText(t) == text
    ensures (t.before, t.v, t.epoch, t.first, t.more) == (s.before, s.v, s.epoch, s.first, s.more)
  {
    hide ReadPre, ReadPost, ReadDev, ReadLocal, MarkedText, PostSpelt, LocalSpelt, PreLabel, MarkedOk, PostOk, LocalOk, IsNumeral;
    var pre := PreSplits(text);
    var afterPre := ReadPre(text).1;
    var post := PostSplits(afterPre);
    var afterPost := ReadPost(afterPre).1;
    var dev := DevSplits(afterPost);
    var afterDev := ReadDev(afterPost).1;
    var local := LocalSplits(afterDev);
    var after := SpacesSplit(ReadLocal(afterDev).1);
    assert after + "" == after;
    t := s.(pre := pre, post := post, dev := dev, local := local, after := after);
  }

  lemma TailAlways(epoch: nat, release: seq<nat>, text: string)
    requires ReadTail(epoch, release, text).Some?
    ensures ReadTail(0, [], text).Some?
  {
  }

  lemma OpeningSplits(text: string) returns (before: string, v: bool)
    ensures AllSpaces(before)
    ensures text == before + ((if v then "v" else "") + SkipV(SkipSpaces(text)))
  {
    before := SpacesSplit(text);
    var rest := SkipSpaces(text);
    v := rest != "" && rest[0] == 'v';
    assert v ==> rest == "v" + rest[1..];
    assert "" + rest == rest;
  }

  /** Everything that is read is an admitted spelling. */
  lemma ReadingIsASpelling(text: string) returns (s: Spelling)
    requires Parse(text).Some?
    ensures Admitted(s) && Spelt(s) == Lower(text)
  {
    hide ReadTail, ReadMoreRelease, ReadEpoch, ReadNumber, AfterReleaseText, PartsText, Number, IsNumeral, SkipV, SkipSpaces;
    hide Lower, AllSpaces, MarkedOk, PostOk, LocalOk, Admitted;
    var before, v := OpeningSplits(Lower(text));
    var numbers := SkipV(SkipSpaces(Lower(text)));
    var epoch := EpochSplits(numbers);
    var released := ReadEpoch(numbers).1;
    var first, rest := NumberSplits(released);
    var more := PartsSplit(rest);
    var tail := ReadMoreRelease(rest).1;
    TailAlways(ReadEpoch(numbers).0, ReadRelease(released).value.0, tail);
    s := TailSplits(Spelling(before, v, epoch, first, more, None, None, None, None, ""), tail);
    assert released == first + (PartsText(more) + tail);
  }

  /** The accepted texts and their versions are exactly the admitted spellings and their meanings. */
  lemma ReadsExactlyTheSpellings(text: string, v: Version)
    ensures Parse(text) == Some(v) <==> exists s: Spelling :: Admitted(s) && Spelt(s) == Lower(text) && Meaning(s) == v
  {
    hide Parse, Admitted, Spelt, Lower, Meaning;
    if Parse(text) == Some(v) {
      var s := ReadingIsASpelling(text);
      SpellingReads(s, text);
    }
    forall s: Spelling | Admitted(s) && Spelt(s) == Lower(text)
      ensures Parse(text) == Some(Meaning(s))
    {
      SpellingReads(s, text);
    }
  }

  /** The two ways to take a hyphen after a bare word apart are one text. */
  lemma BareWordTakesTheHyphen(s: Spelling) returns (t: Spelling)
    requires InGrammar(s) && HyphenAfterBareWord(s)
    ensures Admitted(t) && Spelt(t) == Spelt(s)
    ensures t.post == None && t.pre.Some? && t.pre.value.digits == s.post.value.digits
  {
    hide PartsText, AfterPostText, PreLabel, AllSpaces, LocalOk;
    var m := s.pre.value.(gap := "-", digits := s.post.value.digits);
    t := s.(pre := Some(m), post := None);
    TextMoves(s.pre.value, m, s.post.value.digits, AfterPostText(s));
    assert AfterPostText(t) == AfterPostText(s) by { SameAfterPost(s, t); }
  }

  lemma SameAfterPost(s: Spelling, t: Spelling)
    requires s.dev == t.dev && s.local == t.local && s.after == t.after
    ensures AfterPostText(s) == AfterPostText(t)
  {
  }

  lemma TextMoves(bare: Marked, m: Marked, digits: string, rest: string)
    requires Bare(bare) && m == bare.(gap := "-", digits := digits)
    ensures MarkedText(Some(m)) + ("" + rest) == MarkedText(Some(bare)) + ("-" + digits + rest)
  {
    var h, tail := bare.lead + bare.word, "-" + digits;
    assert "" + rest == rest;
    MarkedInOne(bare);
    MarkedInOne(m);
    assert h + "" == h;
    Regroup(h, tail, rest);
  }

  lemma MarkedInOne(m: Marked)
    ensures MarkedText(Some(m)) == m.lead + m.word + (m.gap + m.digits)
  {
  }

  lemma Regroup(a: string, b: string, c: string)
    ensures (a + b) + c == a + (b + c)
  {
  }

  /** A text is a version exactly when the grammar has it in some spelling. */
  lemma AcceptsExactlyTheGrammar(text: string)
    ensures Parse(text).Some? <==> exists s: Spelling :: InGrammar(s) && Spelt(s) == Lower(text)
  {
    hide Parse, InGrammar, Spelt, Lower, Meaning, HyphenAfterBareWord;
    if Parse(text).Some? {
      var s := ReadingIsASpelling(text);
    }
    forall s: Spelling | InGrammar(s) && Spelt(s) == Lower(text)
      ensures Parse(text).Some?
    {
      if HyphenAfterBareWord(s) {
        var t := BareWordTakesTheHyphen(s);
        SpellingReads(t, text);
      } else {
        SpellingReads(s, text);
      }
    }
  }
}
