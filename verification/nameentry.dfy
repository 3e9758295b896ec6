/** Typing the player's name: one text event at a time, identified by its
    character code. Backspace erases, Enter confirms a non-empty name, and
    printable ASCII (codes 32 to 127) is appended while the name is shorter
    than 20 characters. Other codes are ignored. */
module NameEntry {

  const MaxNameLength: nat := 20
  const Backspace: nat := 8
  const Enter: nat := 13

  predicate Printable(code: nat) {
    32 <= code < 128
  }

  /** The name being typed, or the name confirmed with Enter. */
  datatype Entry = Editing(buffer: string) | Confirmed(name: string)

  /** One text event. */
  function TypeKey(buffer: string, code: nat): (r: Entry)
    ensures r.Confirmed? <==> code == Enter && |buffer| > 0
    ensures r.Confirmed? ==> r.name == buffer
    ensures r.Editing? && |buffer| <= MaxNameLength ==> |r.buffer| <= MaxNameLength
    ensures r.Editing? ==> (r.buffer <= buffer || buffer <= r.buffer) && |buffer| - 1 <= |r.buffer| <= |buffer| + 1
    ensures code != Backspace && !Printable(code) ==> r == Editing(buffer) || r.Confirmed?
  {
    if code == Backspace then
      Editing(if |buffer| > 0 then buffer[..|buffer| - 1] else buffer)
    else if code == Enter then
      if |buffer| > 0 then Confirmed(buffer) else Editing(buffer)
    else if Printable(code) then
      Editing(if |buffer| < MaxNameLength then buffer + [code as char] else buffer)
    else
      Editing(buffer)
  }

  /** A printable key typed below the length limit adds exactly that
      character, and Backspace takes it off again. */
  lemma BackspaceUndoesTyping(buffer: string, code: nat)
    requires Printable(code) && |buffer| < MaxNameLength
    ensures TypeKey(buffer, code) == Editing(buffer + [code as char])
    ensures TypeKey(TypeKey(buffer, code).buffer, Backspace) == Editing(buffer)
  {
    assert (buffer + [code as char])[..|buffer|] == buffer;
  }

  /** At the length limit printable keys are dropped. */
  lemma FullNameIgnoresTyping(buffer: string, code: nat)
    requires Printable(code) && |buffer| >= MaxNameLength
    ensures TypeKey(buffer, code) == Editing(buffer)
  {
  }

  /** Backspace on an empty name and Enter on an empty name change nothing. */
  lemma EmptyNameKeys(code: nat)
    requires code == Backspace || code == Enter
    ensures TypeKey([], code) == Editing([])
  {
  }

  /** Typing a whole sequence of keys. */
  function TypeKeys(buffer: string, codes: seq<nat>): Entry
    decreases |codes|
  {
    if |codes| == 0 then Editing(buffer)
    else match TypeKey(buffer, codes[0])
      case Confirmed(name) => Confirmed(name)
      case Editing(b) => TypeKeys(b, codes[1..])
  }

  /** Whatever keys are typed from an empty name, the name that is confirmed
      is non-empty and at most 20 characters long. */
  lemma {:induction false} TypedNamesBounded(buffer: string, codes: seq<nat>)
    requires |buffer| <= MaxNameLength
    ensures TypeKeys(buffer, codes).Editing? ==> |TypeKeys(buffer, codes).buffer| <= MaxNameLength
    ensures TypeKeys(buffer, codes).Confirmed? ==>
      0 < |TypeKeys(buffer, codes).name| <= MaxNameLength
    decreases |codes|
  {
    if |codes| > 0 {
      match TypeKey(buffer, codes[0])
      case Confirmed(name) =>
      case Editing(b) => TypedNamesBounded(b, codes[1..]);
    }
  }
}
