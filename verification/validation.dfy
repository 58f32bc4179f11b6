/** The gate the two add buttons run before inserting a task: the name must
    hold something besides spaces and be at most MAX_TASK_NAME_LENGTH long.
    It also writes the advisory line shown under the input box. */
module Validation {
  import opened Options

  /** Longest task name the add buttons accept. */
  const MAX_TASK_NAME_LENGTH: nat := 60

  /** The advisory line under the input box. */
  datatype InfoLine =
    | Blank            // the empty advisory
    | AddTaskHint      // asks the user to type a task and press an add button
    | NameTooLongHint  // asks for a name within MAX_TASK_NAME_LENGTH characters
    | EditHint         // explains how to rename a task

  /** What the gate decides, and the advisory it writes (None leaves the
      advisory line as it was). */
  datatype Check = Check(accepted: bool, message: Option<InfoLine>)

  /** Only the space character counts here: tabs and newlines are content. */
  predicate SpaceOnly(s: string) {
    forall i | 0 <= i < |s| :: s[i] == ' '
  }

  /** A name the add buttons would accept. */
  predicate ValidName(s: string) {
    !SpaceOnly(s) && |s| <= MAX_TASK_NAME_LENGTH
  }

  /** The string split at every ' ' and joined back together: every space
      removed, every other character kept. */
  function StripSpaces(s: string): (r: string)
    ensures |r| <= |s|
    ensures ' ' !in r
    ensures r == [] <==> SpaceOnly(s)
  {
    if s == [] then []
    else (if s[0] == ' ' then [] else [s[0]]) + StripSpaces(s[1..])
  }

  /** The emptiness test runs first; the length test runs last, so a name that
      is too long is refused with the length advisory even when it is blank. A
      missing input box refuses silently. */
  function CheckTaskRequirements(input: Option<string>): (r: Check)
    ensures r.accepted <==> input.Some? && ValidName(input.value)
    ensures r.accepted ==> r.message.None?
    ensures !r.accepted ==> (r.message.None? <==> input.None?)
    ensures input.Some? && |input.value| > MAX_TASK_NAME_LENGTH ==>
              r.message == Some(NameTooLongHint)
    ensures input.Some? && |input.value| <= MAX_TASK_NAME_LENGTH && SpaceOnly(input.value) ==>
              r.message == Some(AddTaskHint)
  {
    match input
    case None => Check(false, None)
    case Some(v) =>
      var afterEmptiness :=
        if StripSpaces(v) == [] then Check(false, Some(AddTaskHint)) else Check(true, None);
      if |v| > MAX_TASK_NAME_LENGTH then Check(false, Some(NameTooLongHint))
      else afterEmptiness
  }

  /** One unfolding step of the stripping, on a string written as head and tail. */
  lemma StripSpacesCons(c: char, rest: string)
    ensures StripSpaces([c] + rest) == (if c == ' ' then [] else [c]) + StripSpaces(rest)
  {
  }

  /** Stripping keeps every character other than a space exactly as often as
      it occurs. */
  lemma {:induction false} StripSpacesCounts(s: string, c: char)
    requires c != ' '
    ensures multiset(StripSpaces(s))[c] == multiset(s)[c]
  {
    if s != [] {
      assert s == [s[0]] + s[1..];
      StripSpacesCounts(s[1..], c);
    }
  }

  /** Removing spaces keeps the order of what remains. */
  lemma {:induction false} StripSpacesAppend(a: string, b: string)
    ensures StripSpaces(a + b) == StripSpaces(a) + StripSpaces(b)
  {
    if a == [] {
      assert a + b == b;
    } else {
      var c, tail := a[0], a[1..];
      var head := if c == ' ' then [] else [c];
      assert a == [c] + tail;
      calc {
        StripSpaces(a + b);
      == { assert a + b == [c] + (tail + b); }
        StripSpaces([c] + (tail + b));
      == { StripSpacesCons(c, tail + b); }
        head + StripSpaces(tail + b);
      == { StripSpacesAppend(tail, b); }
        head + (StripSpaces(tail) + StripSpaces(b));
      ==
        (head + StripSpaces(tail)) + StripSpaces(b);
      == { StripSpacesCons(c, tail); }
        StripSpaces(a) + StripSpaces(b);
      }
    }
  }

  /** Removing spaces twice is removing them once. */
  lemma {:induction false} StripSpacesIdempotent(s: string)
    ensures StripSpaces(StripSpaces(s)) == StripSpaces(s)
  {
    if s != [] {
      StripSpacesIdempotent(s[1..]);
      var rest := StripSpaces(s[1..]);
      if s[0] != ' ' {
        assert StripSpaces(s) == [s[0]] + rest;
        StripSpacesAppend([s[0]], rest);
        assert StripSpaces([s[0]]) == [s[0]] by {
          assert [s[0]][1..] == [];
        }
      } else {
        assert StripSpaces(s) == [] + rest;
        assert [] + rest == rest;
      }
    }
  }

  /** The gate's verdict on a few representative names. */
  lemma CheckExamples()
    ensures CheckTaskRequirements(Some("   ")) == Check(false, Some(AddTaskHint))
    ensures CheckTaskRequirements(Some("\t")) == Check(true, None)
    ensures CheckTaskRequirements(Some(seq(61, _ => 'x'))) == Check(false, Some(NameTooLongHint))
    ensures CheckTaskRequirements(Some(seq(61, _ => ' '))) == Check(false, Some(NameTooLongHint))
    ensures CheckTaskRequirements(Some(seq(60, _ => 'x'))) == Check(true, None)
    ensures CheckTaskRequirements(Some("buy milk")) == Check(true, None)
    ensures CheckTaskRequirements(None) == Check(false, None)
  {
  }
}
