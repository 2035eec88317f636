/** The frame of one wrapped call: the reminders it collects while it is open. */
module ReminderFrames {
  import opened Deliveries

  /** Reminders joined to a list, each once. */
  function Join(all: seq<Reminder>, more: seq<Reminder>): seq<Reminder>
    decreases |more|
  {
    if more == [] then all else Join(if more[0] in all then all else all + [more[0]], more[1..])
  }

  lemma {:induction false} JoinIsUnion(all: seq<Reminder>, more: seq<Reminder>)
    ensures all <= Join(all, more)
    ensures forall r :: r in Join(all, more) <==> r in all || r in more
    ensures Distinct(all) ==> Distinct(Join(all, more))
    decreases |more|
  {
    if more != [] {
      JoinIsUnion(if more[0] in all then all else all + [more[0]], more[1..]);
      assert more == [more[0]] + more[1..];
    }
  }

  datatype Frame = Frame(tool: string, callId: string, open: bool, checked: bool, reminders: seq<Reminder>)

  /** Whether a check naming this call is the frame's own, and the frame after the question. */
  function Owns(f: Frame, tool: string, callId: string): (Frame, bool) {
    if f.open && !f.checked && (tool, callId) == (f.tool, f.callId) then (f.(checked := true), true) else (f, false)
  }

  function Add(f: Frame, more: seq<Reminder>): (Frame, bool) {
    if f.open then (f.(reminders := Join(f.reminders, more)), true) else (f, false)
  }

  /** The frame with more reminders; a closed one stays as it is. */
  lemma AddGrows(f: Frame, more: seq<Reminder>)
    ensures var f' := Add(f, more).0;
      && f' == f.(reminders := f'.reminders)
      && (forall r <- f.reminders :: r in f'.reminders)
      && (Distinct(f.reminders) ==> Distinct(f'.reminders))
      && (Add(f, more).1 == f.open)
      && (f.open ==> forall r <- more :: r in f'.reminders)
      && (!f.open ==> f' == f)
  {
    JoinIsUnion(f.reminders, more);
  }

  class ReminderFrame {
    const tool: string
    const callId: string
    const parent: ReminderFrame?
    var open: bool
    var checked: bool
    var reminders: seq<Reminder>

    ghost function Value(): Frame
      reads this
    {
      Frame(tool, callId, open, checked, reminders)
    }

    constructor (tool: string, callId: string, parent: ReminderFrame?)
      ensures Value() == Frame(tool, callId, true, false, []) && this.parent == parent
    {
      this.tool, this.callId, this.parent := tool, callId, parent;
      open, checked, reminders := true, false, [];
    }

    /** The first check naming this call is the call's own; anything else in the frame is nested. */
    method OwnsCheck(tool: string, callId: string) returns (own: bool)
      modifies this
      ensures (Value(), own) == Owns(old(Value()), tool, callId)
    {
      if !open || checked {
        return false;
      }
      if (tool, callId) != (this.tool, this.callId) {
        return false;
      }
      checked := true;
      return true;
    }

    /** False when the frame has closed, so that the caller keeps the reminders. */
    method AddAll(more: seq<Reminder>) returns (added: bool)
      modifies this
      ensures (Value(), added) == Add(old(Value()), more)
    {
      if !open {
        return false;
      }
      var i := 0;
      assert more[0..] == more;
      while i < |more|
        invariant 0 <= i <= |more|
        invariant open && checked == old(checked)
        invariant Join(reminders, more[i..]) == Join(old(reminders), more)
      {
        assert more[i..][1..] == more[i + 1..];
        if more[i] !in reminders {
          reminders := reminders + [more[i]];
        }
        i := i + 1;
      }
      return true;
    }

    method Close() returns (tuple: seq<Reminder>)
      modifies this
      ensures Value() == old(Value()).(open := false) && tuple == reminders
    {
      open := false;
      tuple := reminders;
    }
  }
}
