/**
 * The character cursor both readers consume: the standard library's
 * `Chars` over a borrowed string, and `Peekable<Chars>` on top of it.
 * The cursor never changes the text; it only moves forward through it.
 */
module Cursor {
  import opened Options

  /** The first character of `s`, if any. */
  function Head(s: seq<char>): (c: Option<char>)
    ensures c.None? <==> s == []
    ensures c.Some? ==> c.value == s[0]
  {
    if s == [] then None else Some(s[0])
  }

  /** `s` without its first character; empty stays empty. */
  function Tail(s: seq<char>): (r: seq<char>)
    ensures s == [] ==> r == []
    ensures s != [] ==> [s[0]] + r == s
  {
    if s == [] then [] else s[1..]
  }

  class CharCursor {
    /** The string being read; a `Chars` borrows it and never changes it. */
    const text: seq<char>
    /** How many characters have been handed out so far. */
    var pos: nat

    ghost predicate Valid()
      reads this
    {
      pos <= |text|
    }

    /** What the cursor still yields, in order. */
    function Remaining(): seq<char>
      reads this
      requires Valid()
    {
      text[pos..]
    }

    /** `s.chars()` (and `.peekable()` on it): a cursor at the start of `s`. */
    constructor (s: seq<char>)
      ensures Valid() && text == s && Remaining() == s
    {
      text := s;
      pos := 0;
    }

    /** `peek`: the next character without consuming it. */
    method Peek() returns (c: Option<char>)
      requires Valid()
      ensures c == Head(Remaining())
    {
      c := if pos < |text| then Some(text[pos]) else None;
    }

    /** `next`: the next character, consumed; None once the text is used up. */
    method Next() returns (c: Option<char>)
      requires Valid()
      modifies this
      ensures Valid()
      ensures c == Head(old(Remaining()))
      ensures Remaining() == Tail(old(Remaining()))
    {
      if pos < |text| {
        c := Some(text[pos]);
        pos := pos + 1;
      } else {
        c := None;
      }
    }
  }
}
