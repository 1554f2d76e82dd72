/**
 * The older word reader over a plain character cursor (`src/tokenize.rs`).
 * Its `skip_blank` builds a lazy `skip_while` adapter and drops it without
 * polling it, so it consumes nothing; `next_word` therefore reads from
 * wherever the cursor stands, blank or not.
 */
module Tokenize {
  import opened Options
  import opened Words
  import opened Cursor

  /** `skip_blank` as written: the adapter is never iterated, so the cursor does not move. */
  method SkipBlank(it: CharCursor)
    requires it.Valid()
    modifies it
    ensures it.Valid()
    ensures it.Remaining() == old(it.Remaining())
  {
  }

  /**
   * `next_word`: reads the word at the cursor up to and including the
   * separator that ends it. Always `Some`, `Some("")` at end of input.
   */
  method NextWord(it: CharCursor) returns (word: Option<string>)
    requires it.Valid()
    modifies it
    ensures it.Valid()
    ensures word == Some(TakeWord(old(it.Remaining())).word)
    ensures it.Remaining() == TakeWord(old(it.Remaining())).rest
  {
    SkipBlank(it);
    var w := CollectWord(it);
    word := Some(w);
  }

  /**
   * The `for c in self` loop of `next_word`: pulls characters until a
   * separator (consumed, not kept) or the end, keeping the others in order.
   */
  method CollectWord(it: CharCursor) returns (word: string)
    requires it.Valid()
    modifies it
    ensures it.Valid()
    ensures word == TakeWord(old(it.Remaining())).word
    ensures it.Remaining() == TakeWord(old(it.Remaining())).rest
  {
    ghost var start := it.Remaining();
    var w := "";
    var c := it.Next();
    while c.Some? && !Blank(c.value)
      invariant it.Valid()
      invariant NoBlank(w)
      invariant c.Some? ==> start == w + [c.value] + it.Remaining()
      invariant c.None? ==> start == w && it.Remaining() == []
      decreases |it.Remaining()| + (if c.Some? then 1 else 0)
    {
      w := w + [c.value];
      c := it.Next();
    }
    TakeWordUnique(start, Split(w, c, it.Remaining()));
    word := w;
  }

  /**
   * Where the two readers part: on input that starts with a separator and
   * still holds a word, this reader returns the empty word while the one in
   * `src/reader.rs` returns a non-empty one.
   */
  lemma DivergesFromReader(s: seq<char>)
    requires s != [] && Blank(s[0])
    requires exists i :: 0 <= i < |s| && !Blank(s[i])
    ensures TakeWord(s).word == [] && TakeWord(SkipBlanks(s)).word != []
  {
  }

  /** On input that does not start with a separator, both readers consume the same and return the same word. */
  lemma AgreesWithReaderWithoutLeadingBlank(s: seq<char>)
    requires s == [] || !Blank(s[0])
    ensures TakeWord(SkipBlanks(s)) == TakeWord(s)
  {
  }
}
