/**
 * The keystroke history behind the typing page: which keys are accepted,
 * and how a key press, Backspace and Clear change the list of typed
 * characters and the character currently shown.
 */
module TypingPage {

  import opened Braille

  /** One character of the class [a-zA-Z0-9 .,!?;:'\-]. */
  predicate PrintableChar(c: char)
    ensures PrintableChar(c) <==> InAlphabet(ToLower(c))
  {
    'a' <= c <= 'z' || 'A' <= c <= 'Z' || '0' <= c <= '9' || c in " .,!?;:'-"
  }

  /** The anchored pattern accepts a key name exactly when it is one printable character. */
  predicate Printable(key: string)
    ensures Printable(key) <==> |key| == 1 && InAlphabet(ToLower(key[0]))
  {
    |key| == 1 && PrintableChar(key[0])
  }

  /** A character is accepted exactly when its lower-case form is a key of the Braille table,
      so every accepted character has a cell of its own (blank only for space). */
  lemma PrintableIffMapped(c: char)
    ensures PrintableChar(c) <==> BrailleMap(ToLower(c)).Some?
    ensures PrintableChar(c) && c != ' ' ==> CharToBraille(c) != Blank
  {
  }

  /** The parts written one after another; one-character parts give one character each, in order. */
  function Join(parts: seq<string>): (r: string)
    ensures (forall i :: 0 <= i < |parts| ==> |parts[i]| == 1) ==>
              |r| == |parts| && forall i :: 0 <= i < |parts| ==> r[i] == parts[i][0]
  {
    if parts == [] then "" else parts[0] + Join(parts[1..])
  }

  lemma {:induction false} JoinAppend(parts: seq<string>, s: string)
    ensures Join(parts + [s]) == Join(parts) + s
  {
    if parts == [] {
      assert [] + [s] == [s];
      assert [s][1..] == [];
    } else {
      assert (parts + [s])[1..] == parts[1..] + [s];
      JoinAppend(parts[1..], s);
    }
  }

  /** Joining one-character strings and dropping the last part drops the last character. */
  lemma JoinDropLast(parts: seq<string>)
    requires parts != []
    requires forall i :: 0 <= i < |parts| ==> |parts[i]| == 1
    ensures Join(parts[..|parts| - 1]) == Join(parts)[..|Join(parts)| - 1]
  {
    var init, last := parts[..|parts| - 1], parts[|parts| - 1];
    assert parts == init + [last];
    JoinAppend(init, last);
    assert Join(parts) == Join(init) + last && |last| == 1;
  }

  /** The page state: the typed keys in order, and the key shown in the large cell. */
  class Session {
    var history: seq<string>
    var currentChar: Option<string>

    /** Every entry is a printable key, and the current character is the last entry,
        absent exactly when nothing is typed. */
    ghost predicate Valid()
      reads this
    {
      (forall i :: 0 <= i < |history| ==> Printable(history[i])) &&
      (if history == [] then currentChar == None else currentChar == Some(history[|history| - 1]))
    }

    /** The typed text: the history joined without separator. */
    function TypedText(): (t: string)
      reads this
      requires Valid()
      ensures |t| == |history|
      ensures forall i :: 0 <= i < |history| ==> t[i] == history[i][0]
    {
      Join(history)
    }

    constructor ()
      ensures Valid()
      ensures history == [] && currentChar == None
    {
      history := [];
      currentChar := None;
    }

    /** A key press: Backspace removes the last entry, a printable key is appended,
        any other key changes nothing. */
    method HandleKey(key: string)
      requires Valid()
      modifies this
      ensures Valid()
      ensures key == "Backspace" ==>
                history == (if old(history) == [] then [] else old(history)[..|old(history)| - 1])
      ensures key == "Backspace" ==>
                currentChar == (if history == [] then None else Some(history[|history| - 1]))
      ensures key == "Backspace" && old(history) != [] ==>
                TypedText() == old(TypedText())[..|old(TypedText())| - 1]
      ensures key != "Backspace" && Printable(key) ==>
                history == old(history) + [key] && currentChar == Some(key) &&
                TypedText() == old(TypedText()) + key
      ensures key != "Backspace" && !Printable(key) ==>
                history == old(history) && currentChar == old(currentChar)
    {
      if key == "Backspace" {
        var next := if history == [] then [] else history[..|history| - 1];
        if history != [] {
          JoinDropLast(history);
        }
        currentChar := if |next| > 0 then Some(next[|next| - 1]) else None;
        history := next;
        return;
      }
      if Printable(key) {
        JoinAppend(history, key);
        history := history + [key];
        currentChar := Some(key);
      }
    }

    /** The Clear button empties the history and the current character. */
    method HandleClear()
      requires Valid()
      modifies this
      ensures Valid()
      ensures history == [] && currentChar == None && TypedText() == ""
    {
      history := [];
      currentChar := None;
    }
  }
}
