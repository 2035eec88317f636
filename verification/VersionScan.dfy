/** The scan of the version file finds every assignment as it is spelt, and counts one exactly when there is one. */
module VersionScan {
  import opened PythonVersion
  import opened VersionFile

  lemma {:induction false} SpacesThen(spaces: string, c: char, rest: string)
    requires (forall i :: 0 <= i < |spaces| ==> IsSpace(spaces[i])) && !IsSpace(c)
    ensures LeadingSpaces(spaces + ([c] + rest)) == |spaces|
    decreases |spaces|
  {
    if spaces == "" {
      assert spaces + ([c] + rest) == [c] + rest;
    } else {
      assert (spaces + ([c] + rest))[1..] == spaces[1..] + ([c] + rest);
      SpacesThen(spaces[1..], c, rest);
    }
  }

  lemma Behind(a: string, b: string)
    ensures (a + b)[|a|..] == b && (a + b)[..|a|] == a
  {
  }

  /** The lead of an assignment at the start of a text. */
  lemma LeadIsRead(left: string, right: string, quote: char, rest: string)
    requires IsQuote(quote)
    requires (forall i :: 0 <= i < |left| ==> IsSpace(left[i])) && (forall i :: 0 <= i < |right| ==> IsSpace(right[i]))
    ensures var text := NAME + (left + ("=" + (right + ([quote] + rest)))); var n := |NAME| + |left| + |right| + 2;
      && ReadLead(text) == Some(n) && n <= |text| && text[n..] == rest && text[n - 1] == quote
  {
    hide LeadingSpaces;
    var quoted := right + ([quote] + rest);
    var signed := left + ("=" + quoted);
    var text := NAME + signed;
    Behind(NAME, signed);
    Behind(left, "=" + quoted);
    Behind(right, [quote] + rest);
    SpacesThen(left, '=', quoted);
    SpacesThen(right, quote, rest);
    var equals := |NAME| + |left|;
    assert "=" + quoted == ['='] + quoted;
    assert text[|NAME|..] == signed;
    assert text[equals] == '=' && text[equals + 1..] == quoted;
    assert text[equals + 1 + |right|] == quote;
  }

  /** An assignment at the start of a text is read, up to its closing quote. */
  lemma AssignmentIsRead(a: Assignment)
    requires a.Ok() && a.before == ""
    ensures ReadAssignment(a.Text()).Some?
    ensures var found := ReadAssignment(a.Text()).value;
      found.start + found.size + 1 == |a.Text()| - |a.after| && a.Text()[found.start..][..found.size] == a.value
  {
    hide ReadLead, LeadingUnquoted, ReadAssignment;
    var rest := a.value + ([a.quote] + a.after);
    LeadIsRead(a.left, a.right, a.quote, rest);
    NothingBefore(a);
    ReadBehindTheLead(a, |NAME| + |a.left| + |a.right| + 2);
  }

  lemma ReadBehindTheLead(a: Assignment, n: nat)
    requires a.Ok() && n <= |OwnText(a)| && n > 0 && ReadLead(OwnText(a)) == Some(n)
    requires OwnText(a)[n..] == a.value + ([a.quote] + a.after) && OwnText(a)[n - 1] == a.quote
    ensures ReadAssignment(OwnText(a)) == Some(Literal(n, |a.value|))
    ensures n + |a.value| + 1 == |OwnText(a)| - |a.after| && OwnText(a)[n..][..|a.value|] == a.value
  {
    hide ReadLead, LeadingUnquoted, OwnText;
    var text := OwnText(a);
    assert |text| == n + |text[n..]|;
    assert text[n + |a.value|] == text[n..][|a.value|];
    UnquotedThen(a.value, [a.quote] + a.after);
    Behind(a.value, [a.quote] + a.after);
  }

  lemma TextFurtherOn(a: Assignment)
    requires a.before != ""
    ensures a.Text() != "" && a.Text()[1..] == a.(before := a.before[1..]).Text()
  {
    hide OwnText;
    assert OwnText(a.(before := a.before[1..])) == OwnText(a) by { OwnIsOwn(a, a.before[1..]); }
  }

  lemma OwnIsOwn(a: Assignment, before: string)
    ensures OwnText(a.(before := before)) == OwnText(a)
  {
  }

  lemma TextIsLong(a: Assignment)
    ensures |a.Text()| > |a.before| + |a.after|
  {
  }

  /** An assignment anywhere in the text is an assignment at the start of what is left from there. */
  lemma {:induction false} AssignmentFrom(text: string, a: Assignment)
    requires a.Ok() && a.Text() == text
    ensures |a.before| < |text| && ReadAssignment(text[|a.before|..]).Some?
    ensures var found := ReadAssignment(text[|a.before|..]).value;
      |a.before| + found.start + found.size + 1 == |text| - |a.after|
    decreases |a.before|
  {
    hide ReadAssignment;
    TextIsLong(a);
    if a.before == "" {
      AssignmentIsRead(a);
      assert text[0..] == text;
    } else {
      var b := a.(before := a.before[1..]);
      TextFurtherOn(a);
      AssignmentFrom(text[1..], b);
      assert text[1..][|b.before|..] == text[|a.before|..];
    }
  }

  /** The first assignment of a scan: nothing that starts earlier is one. */
  lemma {:induction false} FirstIsLeftmost(text: string) returns (a: Assignment)
    requires First(text).Some?
    ensures a.Ok() && a.Text() == text && forall i :: 0 <= i < |a.before| && i < |text| ==> ReadAssignment(text[i..]) == None
    ensures var found := First(text).value;
      a.value == text[found.start..][..found.size] && found.start + found.size + 1 == |text| - |a.after|
    decreases |text|
  {
    hide ReadAssignment;
    if ReadAssignment(text).Some? {
      a := AssignmentSplits(text);
      AssignmentIsRead(a);
    } else {
      var later := FirstIsLeftmost(text[1..]);
      a := later.(before := [text[0]] + later.before);
      OneFurther(text, later);
      forall i | 0 <= i < |a.before| && i < |text|
        ensures ReadAssignment(text[i..]) == None
      {
        if i > 0 {
          assert text[i..] == text[1..][i - 1..];
        } else {
          assert text[0..] == text;
        }
      }
    }
  }

  lemma {:induction false} CountFromFirst(text: string)
    requires First(text).Some?
    ensures var end := First(text).value.start + First(text).value.size + 1;
      end <= |text| && Count(text) == 1 + Count(text[end..])
    decreases |text|
  {
    hide ReadAssignment;
    if ReadAssignment(text) == None {
      CountFromFirst(text[1..]);
      var end := First(text[1..]).value.start + First(text[1..]).value.size + 1;
      assert text[1..][end..] == text[end + 1..];
    }
  }

  ghost predicate IsAssignmentOf(text: string, a: Assignment) {
    a.Ok() && a.Text() == text
  }

  lemma {:induction false} FoundWhenThere(text: string, a: Assignment)
    requires IsAssignmentOf(text, a)
    ensures Count(text) > 0
    decreases |text|
  {
    hide ReadAssignment;
    TextIsLong(a);
    if ReadAssignment(text) == None {
      if a.before == "" {
        AssignmentIsRead(a);
        assert false;
      } else {
        TextFurtherOn(a);
        FoundWhenThere(text[1..], a.(before := a.before[1..]));
      }
    }
  }

  /** The scan finds an assignment exactly when the text has one. */
  lemma FoundExactly(text: string)
    ensures Count(text) > 0 <==> exists a: Assignment :: IsAssignmentOf(text, a)
  {
    hide Count, First;
    if Count(text) > 0 {
      var a := FirstIsLeftmost(text);
      assert IsAssignmentOf(text, a);
    }
    forall a: Assignment | IsAssignmentOf(text, a)
      ensures Count(text) > 0
    {
      FoundWhenThere(text, a);
    }
  }

  /** `a` is the first assignment of the text, and none starts after it ends. */
  ghost predicate IsTheOnlyOne(text: string, a: Assignment) {
    && IsAssignmentOf(text, a)
    && forall b: Assignment :: IsAssignmentOf(text, b) ==> |a.before| <= |b.before| < |text| - |a.after|
  }

  lemma LaterOne(text: string, a: Assignment, b: Assignment)
    requires IsAssignmentOf(text, a) && IsAssignmentOf(a.after, b)
    ensures IsAssignmentOf(text, b.(before := text[..|text| - |a.after|] + b.before))
  {
    TextIsLong(a);
    var head := text[..|text| - |a.after|];
    EndsWithAfter(a);
    assert text == head + a.after;
    OwnIsOwn(b, head + b.before);
    hide OwnText;
    assert (head + b.before) + OwnText(b) == head + (b.before + OwnText(b));
  }

  predicate EndsWith(text: string, end: string) {
    |end| <= |text| && text[|text| - |end|..] == end
  }

  lemma EndsBehind(first: string, text: string, end: string)
    requires EndsWith(text, end)
    ensures EndsWith(first + text, end)
  {
    assert (first + text)[|first| + |text| - |end|..] == text[|text| - |end|..];
  }

  lemma EndsBehindThree(x: string, y: string, z: string, text: string, end: string)
    requires EndsWith(text, end)
    ensures EndsWith(x + (y + (z + text)), end)
  {
    hide EndsWith;
    EndsBehind(z, text, end);
    EndsBehind(y, z + text, end);
    EndsBehind(x, y + (z + text), end);
  }

  lemma EndsWithAfter(a: Assignment)
    ensures |a.after| <= |a.Text()| && a.Text()[|a.Text()| - |a.after|..] == a.after
  {
    hide EndsWith;
    EndsAtOnce(a.after);
    EndsBehindThree([a.quote], a.value, [a.quote], a.after, a.after);
    var quoted := [a.quote] + (a.value + ([a.quote] + a.after));
    EndsBehindThree(a.left, "=", a.right, quoted, a.after);
    EndsBehind("__version__", a.left + ("=" + (a.right + quoted)), a.after);
    OwnTextIs(a, quoted);
    hide OwnText;
    EndsBehind(a.before, OwnText(a), a.after);
    EndMeans(a.Text(), a.after);
  }

  lemma OwnTextIs(a: Assignment, quoted: string)
    requires quoted == [a.quote] + (a.value + ([a.quote] + a.after))
    ensures OwnText(a) == "__version__" + (a.left + ("=" + (a.right + quoted)))
  {
  }

  lemma EndsAtOnce(text: string)
    ensures EndsWith(text, text)
  {
  }

  lemma EndMeans(text: string, end: string)
    requires EndsWith(text, end)
    ensures |end| <= |text| && text[|text| - |end|..] == end
  {
  }

  lemma EarlierPart(text: string, a: Assignment, b: Assignment)
    requires IsAssignmentOf(text, a) && IsAssignmentOf(text, b) && |text| - |a.after| <= |b.before|
    ensures IsAssignmentOf(a.after, b.(before := b.before[|text| - |a.after|..]))
  {
    TextIsLong(a);
    EndsWithAfter(a);
    var cut := |text| - |a.after|;
    OwnIsOwn(b, b.before[cut..]);
    hide OwnText;
    assert text[cut..] == b.before[cut..] + OwnText(b);
  }

  /** A value is read exactly when the text has an assignment that comes first and none after it; that one's value. */
  lemma ReadExactly(text: string)
    ensures ReadVersion(text).Ok? <==> exists a: Assignment :: IsTheOnlyOne(text, a)
    ensures forall a: Assignment :: IsTheOnlyOne(text, a) ==> ReadVersion(text) == Ok(a.value)
    ensures ReadVersion(text) == Err(NoAssignment) <==> !exists a: Assignment :: IsAssignmentOf(text, a)
  {
    hide Count, First, IsAssignmentOf, ReadAssignment;
    FoundExactly(text);
    if Count(text) > 0 {
      var a := FirstIsLeftmost(text);
      FirstOfAll(text, a);
      CountFromFirst(text);
      SameAfter(text, a);
      OthersAfter(text, a);
      if Count(text) == 1 {
        assert IsTheOnlyOne(text, a);
      }
      forall x: Assignment | IsTheOnlyOne(text, x)
        ensures Count(text) == 1 && x.value == a.value
      {
        StartsAlike(text, a, x);
      }
    }
  }

  lemma FirstOfAll(text: string, a: Assignment)
    requires IsAssignmentOf(text, a)
    requires forall i :: 0 <= i < |a.before| && i < |text| ==> ReadAssignment(text[i..]) == None
    ensures IsAssignmentOf(text, a) && forall b: Assignment :: IsAssignmentOf(text, b) ==> |a.before| <= |b.before|
  {
    forall b: Assignment | IsAssignmentOf(text, b)
      ensures |a.before| <= |b.before|
    {
      AssignmentFrom(text, b);
    }
  }

  lemma SameAfter(text: string, a: Assignment)
    requires IsAssignmentOf(text, a)
    ensures |a.after| <= |text| && text[|text| - |a.after|..] == a.after
  {
    EndsWithAfter(a);
  }

  lemma OthersAfter(text: string, a: Assignment)
    requires IsAssignmentOf(text, a)
    ensures Count(a.after) == 0 <==> forall b: Assignment :: IsAssignmentOf(text, b) ==> |b.before| < |text| - |a.after|
  {
    hide Count, IsAssignmentOf;
    FoundExactly(a.after);
    SameAfter(text, a);
    if b: Assignment :| IsAssignmentOf(a.after, b) {
      LaterOne(text, a, b);
      SameAfter(text, a);
      assert |b.(before := text[..|text| - |a.after|] + b.before).before| >= |text| - |a.after|;
    }
    forall b: Assignment | IsAssignmentOf(text, b) && |text| - |a.after| <= |b.before|
      ensures Count(a.after) > 0
    {
      EarlierPart(text, a, b);
      assert IsAssignmentOf(a.after, b.(before := b.before[|text| - |a.after|..]));
    }
  }

  /** Two assignments of a text that start together are one. */
  lemma StartsAlike(text: string, a: Assignment, b: Assignment)
    requires IsAssignmentOf(text, a) && IsAssignmentOf(text, b)
    ensures |a.before| == |b.before| ==> |a.after| == |b.after| && a.value == b.value
  {
    hide ReadAssignment;
    AssignmentFrom(text, a);
    AssignmentFrom(text, b);
    if |a.before| == |b.before| {
      ValueFrom(text, a);
      ValueFrom(text, b);
    }
  }

  lemma ValueFrom(text: string, a: Assignment)
    requires IsAssignmentOf(text, a)
    ensures |a.before| <= |text| && ReadAssignment(text[|a.before|..]).Some?
    ensures var rest := text[|a.before|..]; var found := ReadAssignment(rest).value; a.value == rest[found.start..][..found.size]
  {
    hide ReadAssignment;
    TextIsLong(a);
    hide OwnText;
    var b := a.(before := "");
    OwnIsOwn(a, "");
    NothingBefore(b);
    Behind(a.before, OwnText(a));
    AssignmentIsRead(b);
  }

  /** Why a write fails: the version is none, or not in its normal form, or outside the release scheme; and
      for one that could be written, the text has no assignment, or not just one. */
  lemma WriteFailsExactly(text: string, version: string)
    ensures Write(text, version) == Err(NotAVersion) <==> Parse(version) == None
    ensures Write(text, version) == Err(NotCanonical) <==> Parse(version).Some? && NormalForm(version) != Some(version)
    ensures Write(text, version) == Err(OutsideTheScheme) <==>
      NormalForm(version) == Some(version) && MatchScheme(version) == None
    ensures var writable := NormalForm(version) == Some(version) && MatchScheme(version).Some?;
      && (Write(text, version) == Err(NoAssignment) <==> writable && !exists a: Assignment :: IsAssignmentOf(text, a))
      && (Write(text, version) == Err(SeveralAssignments) <==>
            writable && (exists a: Assignment :: IsAssignmentOf(text, a)) && !exists a: Assignment :: IsTheOnlyOne(text, a))
  {
    hide Parse, Canonical, MatchScheme, Count, First, IsAssignmentOf, IsTheOnlyOne, SchemeText, Replaced;
    ReadExactly(text);
  }
}
