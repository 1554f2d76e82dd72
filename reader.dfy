/**
 * The word reader over a peekable character cursor (`src/reader.rs`):
 * skip separators, then collect characters up to the next separator,
 * which is consumed as well.
 */
module Reader {
  import opened Options
  import opened Words
  import opened Cursor
  import Definitions

  /** `skip_blank`: consumes exactly the leading separators and nothing else. */
  method SkipBlank(it: CharCursor)
    requires it.Valid()
    modifies it
    ensures it.Valid()
    ensures it.Remaining() == SkipBlanks(old(it.Remaining()))
  {
    while true
      invariant it.Valid()
      invariant SkipBlanks(it.Remaining()) == SkipBlanks(old(it.Remaining()))
      decreases |it.Remaining()|
    {
      var c := it.Peek();
      if c.None? || !Blank(c.value) {
        break;
      }
      var _ := it.Next();
    }
  }

  /**
   * `next_word`: skips separators, then reads the word up to and including
   * the separator that ends it. Always `Some`; `Some("")` once only
   * separators (or nothing) are left.
   */
  method NextWord(it: CharCursor) returns (word: Option<string>)
    requires it.Valid()
    modifies it
    ensures it.Valid()
    ensures word == Some(TakeWord(SkipBlanks(old(it.Remaining()))).word)
    ensures it.Remaining() == TakeWord(SkipBlanks(old(it.Remaining()))).rest
  {
    SkipBlank(it);
    var w := CollectWord(it);
    word := Some(w);
  }

  /**
   * The `for c in self` loop of `next_word`: pulls characters until a
   * separator (consumed, not kept) or the end, keeping the others in order.
   */
  method CollectWord(it: CharCursor) returns (word: string)
    requires it.Valid()
    modifies it
    ensures it.Valid()
    ensures word == TakeWord(old(it.Remaining())).word
    ensures it.Remaining() == TakeWord(old(it.Remaining())).rest
  {
    ghost var start := it.Remaining();
    var w := "";
    var c := it.Next();
    while c.Some? && !Blank(c.value)
      invariant it.Valid()
      invariant NoBlank(w)
      invariant c.Some? ==> start == w + [c.value] + it.Remaining()
      invariant c.None? ==> start == w && it.Remaining() == []
      decreases |it.Remaining()| + (if c.Some? then 1 else 0)
    {
      w := w + [c.value];
      c := it.Next();
    }
    TakeWordUnique(start, Split(w, c, it.Remaining()));
    word := w;
  }

  /** `next_word_expected`: unwraps `next_word`, whose result is never `None`, so the unwrap cannot fail. */
  method NextWordExpected(it: CharCursor) returns (word: string)
    requires it.Valid()
    modifies it
    ensures it.Valid()
    ensures word == TakeWord(SkipBlanks(old(it.Remaining()))).word
    ensures it.Remaining() == TakeWord(SkipBlanks(old(it.Remaining()))).rest
  {
    var r := NextWord(it);
    word := r.value;
  }

  /**
   * Nothing is lost by `next_word`: the skipped separators, the word, its
   * terminator and what is left join back into the input.
   */
  lemma NextWordNoLoss(s: seq<char>)
    ensures s[..LeadingBlanks(s)] + Joined(TakeWord(SkipBlanks(s))) == s
  {
  }

  /** The `skip_blank` test: `" \nHello there"` is left as `"Hello there"`. */
  lemma SkipBlankExample()
    ensures SkipBlanks(" \nHello there") == "Hello there"
  {
    var s := " \nHello there";
    assert s[1..][1..] == "Hello there";
    assert LeadingBlanks(s[1..][1..]) == 0;
    assert LeadingBlanks(s) == 2;
  }

  /** `Namespace::DELIMITER` lists exactly the characters `blank` accepts. */
  lemma DelimiterIsBlank()
    ensures forall c :: c in Definitions.DELIMITER <==> Blank(c)
  {
  }

  /** Tab and carriage return are not separators. */
  lemma TabAndReturnNotBlank()
    ensures !Blank('\t') && !Blank('\r')
  {
  }
}
