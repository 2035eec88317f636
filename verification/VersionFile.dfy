/** Reading and rewriting the one version literal of a `_version.py`. */
module VersionFile {
  import opened PythonVersion

  const NAME := "__version__"

  predicate IsQuote(c: char) {
    c == '"' || c == '\''
  }

  function LeadingSpaces(text: string): (n: nat)
    ensures n <= |text| && (n < |text| ==> !IsSpace(text[n]))
    ensures forall i :: 0 <= i < n ==> IsSpace(text[i])
    decreases |text|
  {
    if text == "" || !IsSpace(text[0]) then 0 else 1 + LeadingSpaces(text[1..])
  }

  function LeadingUnquoted(text: string): (n: nat)
    ensures n <= |text| && (n < |text| ==> IsQuote(text[n]))
    ensures forall i :: 0 <= i < n ==> !IsQuote(text[i])
    decreases |text|
  {
    if text == "" || IsQuote(text[0]) then 0 else 1 + LeadingUnquoted(text[1..])
  }

  /** The name, spaces around an equals sign, and the opening quote: how long that is, if the text starts with it. */
  function ReadLead(text: string): (r: Option<nat>)
    ensures r.Some? ==> 0 < r.value <= |text| && IsQuote(text[r.value - 1])
  {
    if !(NAME <= text) then None
    else
      var equals := |NAME| + LeadingSpaces(text[|NAME|..]);
      if equals == |text| || text[equals] != '=' then None
      else
        var quote := equals + 1 + LeadingSpaces(text[equals + 1..]);
        if quote == |text| || !IsQuote(text[quote]) then None else Some(quote + 1)
  }

  /** An assignment at the start of the text: where its value begins and how long it is. */
  datatype Literal = Literal(start: nat, size: nat)

  function ReadAssignment(text: string): (r: Option<Literal>)
    ensures r.Some? ==>
      && 0 < r.value.start && 0 < r.value.size && r.value.start + r.value.size < |text|
  {
    match ReadLead(text)
    case None => None
    case Some(start) =>
      var size := LeadingUnquoted(text[start..]);
      if size == 0 || start + size == |text| || text[start + size] != text[start - 1] then None
      else Some(Literal(start, size))
  }

  /** How many assignments a scan from the left finds, each starting after the one before. */
  function Count(text: string): nat
    decreases |text|
  {
    if text == "" then 0
    else
      match ReadAssignment(text)
      case Some(found) => 1 + Count(text[found.start + found.size + 1..])
      case None => Count(text[1..])
  }

  /** The first of them, placed in the whole text. */
  function First(text: string): (r: Option<Literal>)
    ensures r.Some? ==> r.value.start + r.value.size < |text|
    ensures r.Some? <==> Count(text) > 0
    decreases |text|
  {
    if text == "" then None
    else if ReadAssignment(text).Some? then ReadAssignment(text)
    else
      match First(text[1..])
      case None => None
      case Some(found) => Some(found.(start := found.start + 1))
  }

  function ReadVersion(text: string): Result<string> {
    if Count(text) == 0 then Err(NoAssignment)
    else if Count(text) > 1 then Err(SeveralAssignments)
    else Ok(text[First(text).value.start..][..First(text).value.size])
  }

  /** The text with its first literal replaced. */
  function Replaced(text: string, version: string): string
    requires First(text).Some?
  {
    var found := First(text).value;
    text[..found.start] + version + text[found.start + found.size..]
  }

  function Write(text: string, version: string): Result<string> {
    match Classify(version)
    case Err(e) => Err(e)
    case Ok((line, _)) =>
      if line == OtherRelease then Err(OutsideTheScheme)
      else if Count(text) == 0 then Err(NoAssignment)
      else if Count(text) > 1 then Err(SeveralAssignments)
      else Ok(Replaced(text, version))
  }

  /** A value that can stand between quotes. */
  ghost predicate Quotable(value: string) {
    value != "" && forall i :: 0 <= i < |value| ==> !IsQuote(value[i])
  }

  // ---- replacing one literal ----

  lemma {:induction false} UnquotedThen(value: string, rest: string)
    requires (forall i :: 0 <= i < |value| ==> !IsQuote(value[i])) && rest != "" && IsQuote(rest[0])
    ensures LeadingUnquoted(value + rest) == |value|
    decreases |value|
  {
    if value == "" {
      assert value + rest == rest;
    } else {
      assert (value + rest)[1..] == value[1..] + rest;
      UnquotedThen(value[1..], rest);
    }
  }

  lemma {:induction false} SpacesAgree(a: string, b: string)
    requires LeadingSpaces(a) < |a| && |b| > LeadingSpaces(a)
    requires forall i :: 0 <= i <= LeadingSpaces(a) ==> a[i] == b[i]
    ensures LeadingSpaces(b) == LeadingSpaces(a)
    decreases |a|
  {
    if IsSpace(a[0]) {
      assert forall i :: 0 <= i <= LeadingSpaces(a[1..]) ==> a[1..][i] == b[1..][i];
      SpacesAgree(a[1..], b[1..]);
    }
  }

  lemma SpacesAgreeWithin(a: string, b: string, n: nat, at: nat)
    requires n <= |a| && n <= |b| && a[..n] == b[..n] && at <= n && at + LeadingSpaces(a[at..]) < n
    ensures LeadingSpaces(b[at..]) == LeadingSpaces(a[at..])
  {
    forall i | 0 <= i <= LeadingSpaces(a[at..])
      ensures a[at..][i] == b[at..][i]
    {
      assert a[at..][i] == a[..n][at + i] == b[..n][at + i] == b[at..][i];
    }
    SpacesAgree(a[at..], b[at..]);
  }

  /** The lead depends only on the text up to the opening quote. */
  lemma LeadAgrees(a: string, b: string)
    requires ReadLead(a).Some? && ReadLead(a).value <= |b|
    requires a[..ReadLead(a).value] == b[..ReadLead(a).value]
    ensures ReadLead(b) == ReadLead(a)
  {
    hide LeadingSpaces();
    var n := ReadLead(a).value;
    var equals := |NAME| + LeadingSpaces(a[|NAME|..]);
    SpacesAgreeWithin(a, b, n, |NAME|);
    SpacesAgreeWithin(a, b, n, equals + 1);
    assert a[equals] == a[..n][equals] && b[equals] == b[..n][equals];
    assert a[n - 1] == a[..n][n - 1] && b[n - 1] == b[..n][n - 1];
    NameAgrees(a, b, n);
  }

  lemma NameAgrees(a: string, b: string, n: nat)
    requires |NAME| <= n <= |a| && n <= |b| && a[..n] == b[..n] && NAME <= a
    ensures NAME <= b
  {
    assert a[..|NAME|] == a[..n][..|NAME|] == b[..|NAME|];
  }

  /** A lead holds no quote but its last character. */
  lemma LeadHasOneQuote(text: string, i: nat)
    requires ReadLead(text).Some? && i < ReadLead(text).value - 1
    ensures !IsQuote(text[i])
  {
    var equals := |NAME| + LeadingSpaces(text[|NAME|..]);
    if i < |NAME| {
      assert text[i] == NAME[i];
      assert text[i] in NAME;
    } else if i < equals {
      assert text[i] == text[|NAME|..][i - |NAME|];
    } else if i > equals {
      assert text[i] == text[equals + 1..][i - equals - 1];
    }
  }

  /** `found` is quoted in `text`, by one kind of quote on both sides and none between. */
  ghost predicate Quoted(text: string, found: Literal) {
    && 0 < found.start && 0 < found.size && found.start + found.size < |text|
    && IsQuote(text[found.start - 1]) && text[found.start + found.size] == text[found.start - 1]
    && forall i :: found.start <= i < found.start + found.size ==> !IsQuote(text[i])
  }

  lemma AssignmentIsQuoted(text: string)
    requires ReadAssignment(text).Some?
    ensures Quoted(text, ReadAssignment(text).value)
    ensures ReadLead(text) == Some(ReadAssignment(text).value.start)
  {
    hide ReadLead();
    var found := ReadAssignment(text).value;
    forall i | found.start <= i < found.start + found.size
      ensures !IsQuote(text[i])
    {
      assert text[i] == text[found.start..][i - found.start];
    }
  }

  lemma {:induction false} FirstIsQuoted(text: string)
    requires First(text).Some?
    ensures Quoted(text, First(text).value)
    decreases |text|
  {
    hide ReadAssignment();
    if ReadAssignment(text).Some? {
      AssignmentIsQuoted(text);
    } else {
      FirstIsQuoted(text[1..]);
      var found := First(text[1..]).value;
      forall i | found.start + 1 <= i < found.start + 1 + found.size
        ensures !IsQuote(text[i])
      {
        assert text[i] == text[1..][i - 1];
      }
    }
  }

  /** After a lead, a quoted stretch makes an assignment. */
  lemma LeadAndQuotes(text: string, found: Literal)
    requires Quoted(text, found) && ReadLead(text) == Some(found.start)
    ensures ReadAssignment(text) == Some(found)
  {
    hide ReadLead();
    var value := text[found.start..][..found.size];
    var rest := text[found.start + found.size..];
    assert text[found.start..] == value + rest;
    UnquotedThen(value, rest);
  }

  ghost function Put(text: string, found: Literal, value: string): string
    requires found.start + found.size <= |text|
  {
    text[..found.start] + value + text[found.start + found.size..]
  }

  /** Replacing a quoted stretch makes no assignment where there was none. */
  lemma NothingAppears(text: string, found: Literal, value: string)
    requires Quoted(text, found) && Quotable(value)
    requires ReadAssignment(Put(text, found, value)).Some?
    ensures ReadAssignment(text).Some?
  {
    hide ReadLead(), ReadAssignment();
    var new' := Put(text, found, value);
    var m := ReadAssignment(new').value;
    AssignmentIsQuoted(new');
    var s := found.start;
    assert new'[..s] == text[..s];
    assert new'[s - 1] == new'[..s][s - 1];
    if m.start > s {
      LeadHasOneQuote(new', s - 1);
    } else {
      assert new'[..m.start] == new'[..s][..m.start] == text[..m.start];
      LeadAgrees(new', text);
      if m.start == s {
        LeadAndQuotes(text, found);
      } else {
        QuoteStops(new', m, s - 1);
        assert forall i :: 0 <= i < s ==> new'[i] == text[i];
        LeadAndQuotes(text, m);
      }
    }
  }

  lemma QuoteStops(text: string, found: Literal, at: nat)
    requires Quoted(text, found) && found.start <= at < |text| && IsQuote(text[at])
    ensures found.start + found.size <= at
  {
  }

  lemma CountMovesOn(text: string)
    requires text != "" && ReadAssignment(text) == None
    ensures Count(text) == Count(text[1..])
  {
    hide ReadAssignment(), First();
  }

  lemma FirstMovesOn(text: string)
    requires text != "" && ReadAssignment(text) == None && First(text[1..]).Some?
    ensures First(text) == Some(Literal(First(text[1..]).value.start + 1, First(text[1..]).value.size))
  {
    hide ReadAssignment(), Count();
  }

  lemma ScanMovesOn(text: string)
    requires text != "" && ReadAssignment(text) == None
    ensures Count(text) == Count(text[1..])
    ensures First(text[1..]).Some? ==>
      First(text) == Some(Literal(First(text[1..]).value.start + 1, First(text[1..]).value.size))
  {
    hide ReadAssignment(), Count(), First();
    CountMovesOn(text);
    if First(text[1..]).Some? {
      FirstMovesOn(text);
    }
  }

  lemma ScanFinds(text: string)
    requires ReadAssignment(text).Some?
    ensures var found := ReadAssignment(text).value;
      Count(text) == 1 + Count(text[found.start + found.size + 1..]) && First(text) == Some(found)
  {
    hide ReadAssignment();
  }

  lemma PutLeavesTheRest(text: string, found: Literal, value: string)
    requires found.start + found.size < |text|
    ensures Put(text, found, value)[found.start + |value| + 1..] == text[found.start + found.size + 1..]
  {
  }

  lemma PutFurtherOn(text: string, found: Literal, value: string)
    requires 1 + found.start + found.size <= |text|
    ensures Put(text, found.(start := found.start + 1), value) != ""
    ensures Put(text, found.(start := found.start + 1), value)[1..] == Put(text[1..], found, value)
  {
  }

  /** Exactly one assignment, with `found` as its literal. */
  ghost predicate Only(text: string, found: Literal) {
    Count(text) == 1 && First(text) == Some(found)
  }

  lemma OnlyAtTheFront(text: string, value: string)
    requires ReadAssignment(text).Some? && Only(text, ReadAssignment(text).value) && Quotable(value)
    ensures var found := ReadAssignment(text).value;
      Only(Put(text, found, value), Literal(found.start, |value|))
  {
    hide ReadAssignment(), Count(), First(), Put(), Quotable();
    var found := ReadAssignment(text).value;
    ScanFinds(text);
    ReplacedAtTheFront(text, value);
    ScanFinds(Put(text, found, value));
    PutLeavesTheRest(text, found, value);
  }

  lemma OnlyFurtherOn(text: string, found: Literal, value: string)
    requires 1 + found.start + found.size < |text| && Quotable(value)
    requires Quoted(text, found.(start := found.start + 1)) && ReadAssignment(text) == None
    requires Only(Put(text[1..], found, value), Literal(found.start, |value|))
    ensures Only(Put(text, found.(start := found.start + 1), value), Literal(found.start + 1, |value|))
  {
    hide ReadAssignment(), Count(), First(), Put(), Quotable(), Quoted();
    var found' := found.(start := found.start + 1);
    PutFurtherOn(text, found, value);
    if ReadAssignment(Put(text, found', value)).Some? {
      NothingAppears(text, found', value);
    }
    ScanMovesOn(Put(text, found', value));
  }

  lemma {:induction false} ReplacingKeepsTheScan(text: string, found: Literal, value: string)
    requires Only(text, found) && Quotable(value)
    ensures Quoted(text, found) && Only(Put(text, found, value), Literal(found.start, |value|))
    decreases |text|
  {
    FirstIsQuoted(text);
    EmptyHasNone(text);
    hide ReadAssignment(), Count(), First(), Put(), Quotable(), Quoted();
    if ReadAssignment(text).Some? {
      ScanFinds(text);
      OnlyAtTheFront(text, value);
    } else {
      ScanMovesOn(text);
      var later := First(text[1..]).value;
      ReplacingKeepsTheScan(text[1..], later, value);
      OnlyFurtherOn(text, later, value);
    }
  }

  lemma EmptyHasNone(text: string)
    requires Count(text) > 0
    ensures text != ""
  {
  }

  lemma ReplacedAtTheFront(text: string, value: string)
    requires ReadAssignment(text).Some? && Quotable(value)
    ensures ReadAssignment(Put(text, ReadAssignment(text).value, value))
         == Some(Literal(ReadAssignment(text).value.start, |value|))
  {
    hide ReadLead(), ReadAssignment();
    AssignmentIsQuoted(text);
    var found := ReadAssignment(text).value;
    var new' := Put(text, found, value);
    assert new'[..found.start] == text[..found.start];
    LeadAgrees(text, new');
    assert new'[found.start - 1] == new'[..found.start][found.start - 1];
    assert forall i :: 0 <= i < |value| ==> new'[found.start + i] == value[i];
    assert forall i :: found.start <= i < found.start + |value| ==> new'[i] == value[i - found.start];
    LeadAndQuotes(new', Literal(found.start, |value|));
  }

  // ---- writing, then reading back ----

  lemma NumeralIsUnquoted(digits: string)
    requires IsNumeral(digits)
    ensures Quotable(digits)
  {
    forall i | 0 <= i < |digits|
      ensures !IsQuote(digits[i])
    {
      assert IsDigit(digits[i]);
    }
  }

  lemma JoinIsUnquoted(first: string, second: string)
    requires Quotable(first) && (second == "" || Quotable(second))
    ensures Quotable(first + second)
  {
  }

  lemma MarksAreUnquoted()
    ensures Quotable(".") && Quotable("b")
  {
  }

  lemma SchemeTextIsQuotable(s: Scheme)
    ensures Quotable(SchemeText(s))
  {
    hide Decimal(), Quotable(), IsNumeral();
    MarksAreUnquoted();
    NumeralIsUnquoted(Decimal(s.major));
    NumeralIsUnquoted(Decimal(s.minor));
    NumeralIsUnquoted(Decimal(s.patch));
    if s.BetaLine? {
      NumeralIsUnquoted(Decimal(s.beta));
      JoinIsUnquoted("b", Decimal(s.beta));
    }
    var p := Decimal(s.patch) + SchemeTail(s);
    JoinIsUnquoted(Decimal(s.patch), SchemeTail(s));
    JoinIsUnquoted(".", p);
    JoinIsUnquoted(Decimal(s.minor), "." + p);
    JoinIsUnquoted(".", Decimal(s.minor) + ("." + p));
    JoinIsUnquoted(Decimal(s.major), "." + (Decimal(s.minor) + ("." + p)));
  }

  lemma WritableIsQuotable(version: string)
    requires Classify(version).Ok? && Classify(version).value.0 != OtherRelease
    ensures Quotable(version)
  {
    hide Parse(), MatchScheme(), Canonical(), Legal(), VersionOf(), SchemeText(), Quotable();
    var s := MatchScheme(version).value;
    MatchedSchemeParses(version);
    SchemeTextIsCanonical(s);
    SchemeTextIsQuotable(s);
  }

  /**
   * A write succeeds exactly for a scheme version and a file with one assignment. Reading the file
   * back gives that version, and only the literal between the quotes has changed.
   */
  lemma WriteThenRead(text: string, version: string)
    ensures Write(text, version).Ok? <==>
      ReadVersion(text).Ok? && Classify(version).Ok? && Classify(version).value.0 != OtherRelease
    ensures Write(text, version).Ok? ==>
      && ReadVersion(Write(text, version).value) == Ok(version)
      && exists before, after ::
           && text == before + ReadVersion(text).value + after
           && Write(text, version).value == before + version + after
  {
    hide Classify(), Count(), First(), Quotable();
    if Write(text, version).Ok? {
      var found := First(text).value;
      WritableIsQuotable(version);
      ReplacingKeepsTheScan(text, found, version);
      var before, after := text[..found.start], text[found.start + found.size..];
      assert text == before + text[found.start..][..found.size] + after;
      var new' := before + version + after;
      assert new' == Put(text, found, version);
      assert new'[found.start..][..|version|] == version;
    }
  }

  // ---- what a read finds ----

  /** An assignment as it is spelt: the name, an equals sign among spaces, and a value between equal quotes. */
  datatype Assignment = Assignment(before: string, left: string, right: string, quote: char, value: string, after: string)
  {
    function Text(): string {
      before + OwnText(this)
    }

    ghost predicate Ok() {
      && (quote == '"' || quote == '\'') && value != "" && (forall i :: 0 <= i < |value| ==> value[i] != '"' && value[i] != '\'')
      && (forall i :: 0 <= i < |left| ==> IsSpace(left[i])) && (forall i :: 0 <= i < |right| ==> IsSpace(right[i]))
    }
  }

  function OwnText(a: Assignment): string {
    "__version__" + (a.left + ("=" + (a.right + ([a.quote] + (a.value + ([a.quote] + a.after))))))
  }

  /** Spaces and one character more, at the start of a text. */
  lemma SpacesSplit(text: string) returns (spaces: string, rest: string)
    requires LeadingSpaces(text) < |text|
    ensures forall i :: 0 <= i < |spaces| ==> IsSpace(spaces[i])
    ensures |spaces| == LeadingSpaces(text) && rest == text[|spaces| + 1..]
    ensures text == spaces + ([text[|spaces|]] + rest)
  {
    hide IsSpace;
    var n := LeadingSpaces(text);
    spaces, rest := text[..n], text[n + 1..];
    SplitsAt(text, n);
  }

  lemma LeadSplits(text: string) returns (left: string, right: string, quote: char)
    requires ReadLead(text).Some?
    ensures IsQuote(quote) && (forall i :: 0 <= i < |left| ==> IsSpace(left[i])) && (forall i :: 0 <= i < |right| ==> IsSpace(right[i]))
    ensures quote == text[ReadLead(text).value - 1]
    ensures text == NAME + (left + ("=" + (right + ([quote] + text[ReadLead(text).value..]))))
  {
    hide LeadingSpaces, IsSpace;
    var named := text[|NAME|..];
    assert text == NAME + named;
    var signed, rest;
    left, signed := SpacesSplit(named);
    assert named[|left|] == text[|NAME| + |left|];
    assert signed == text[|NAME| + |left| + 1..];
    right, rest := SpacesSplit(signed);
    quote := signed[|right|];
    assert rest == text[ReadLead(text).value..];
  }

  lemma SplitsAt(text: string, n: nat)
    requires n < |text|
    ensures text == text[..n] + ([text[n]] + text[n + 1..])
  {
  }

  lemma ValueSplits(text: string) returns (value: string, after: string)
    requires ReadAssignment(text).Some?
    ensures var found := ReadAssignment(text).value;
      && ReadLead(text) == Some(found.start) && Quotable(value) && value == text[found.start..][..found.size]
      && text[found.start..] == value + ([text[found.start - 1]] + after)
  {
    hide ReadLead;
    var found := ReadAssignment(text).value;
    var rest := text[found.start..];
    value, after := rest[..found.size], rest[found.size + 1..];
    SplitsAt(rest, found.size);
    assert rest[found.size] == text[found.start + found.size];
  }

  lemma AssignmentSplits(text: string) returns (a: Assignment)
    requires ReadAssignment(text).Some?
    ensures a.Ok() && a.Text() == text && a.before == ""
    ensures var found := ReadAssignment(text).value; a.value == text[found.start..][..found.size]
  {
    hide ReadLead, ReadAssignment;
    var value, after := ValueSplits(text);
    var left, right, quote := LeadSplits(text);
    a := Assignment("", left, right, quote, value, after);
    assert OwnText(a) == NAME + (left + ("=" + (right + ([quote] + (value + ([quote] + after))))));
    assert a.Text() == OwnText(a) by { NothingBefore(a); }
  }

  lemma NothingBefore(a: Assignment)
    requires a.before == ""
    ensures a.Text() == OwnText(a)
  {
    hide OwnText;
  }

  /** The first literal of a scan is the value of an assignment. */
  lemma {:induction false} FirstIsAssigned(text: string) returns (a: Assignment)
    requires First(text).Some?
    ensures a.Ok() && a.Text() == text
    ensures var found := First(text).value; a.value == text[found.start..][..found.size]
    decreases |text|
  {
    hide ReadAssignment, Quotable;
    if ReadAssignment(text).Some? {
      a := AssignmentSplits(text);
    } else {
      var later := FirstIsAssigned(text[1..]);
      a := later.(before := [text[0]] + later.before);
      OneFurther(text, later);
    }
  }

  lemma OneFurther(text: string, later: Assignment)
    requires text != "" && later.Text() == text[1..]
    ensures later.(before := [text[0]] + later.before).Text() == text
  {
    assert OwnText(later.(before := [text[0]] + later.before)) == OwnText(later);
    hide OwnText;
    assert text == [text[0]] + text[1..];
    assert ([text[0]] + later.before) + OwnText(later) == [text[0]] + (later.before + OwnText(later));
  }

  class Disk {
    var text: string

    constructor (text: string)
      ensures this.text == text
    {
      this.text := text;
    }

    method Read() returns (r: Result<string>)
      ensures r == ReadVersion(text)
      ensures r.Ok? <==> Count(text) == 1
      ensures r.Ok? ==> exists a: Assignment :: a.Ok() && a.Text() == text && a.value == r.value
    {
      hide Count, First;
      var count := Count(text);
      if count == 0 {
        return Err(NoAssignment);
      }
      if count > 1 {
        return Err(SeveralAssignments);
      }
      var found := First(text).value;
      var _ := FirstIsAssigned(text);
      return Ok(text[found.start..][..found.size]);
    }

    method Rewrite(version: string) returns (r: Result<string>)
      modifies this
      ensures r == match Write(old(text), version) case Ok(_) => Ok(version) case Err(e) => Err(e)
      ensures text == match Write(old(text), version) case Ok(new') => new' case Err(_) => old(text)
    {
      var line := Classify(version);
      if line.Err? {
        return Err(line.error);
      }
      if line.value.0 == OtherRelease {
        return Err(OutsideTheScheme);
      }
      var count := Count(text);
      if count != 1 {
        return Err(if count == 0 then NoAssignment else SeveralAssignments);
      }
      text := Replaced(text, version);
      return Ok(version);
    }
  }
}
