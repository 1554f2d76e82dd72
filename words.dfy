/**
 * The word syntax both readers share, stated on values: which characters
 * separate words, how many separators lead a text, and how a text splits
 * into its first word, the separator that ends it and what follows.
 * The cursor-based readers in modules Reader and Tokenize are proved
 * against these functions.
 */
module Words {
  import opened Options

  /** A separator: a space or a line feed, and nothing else (no tab, no carriage return). */
  predicate Blank(c: char)
  {
    c == ' ' || c == '\n'
  }

  predicate AllBlank(s: seq<char>)
  {
    forall i :: 0 <= i < |s| ==> Blank(s[i])
  }

  predicate NoBlank(s: seq<char>)
  {
    forall i :: 0 <= i < |s| ==> !Blank(s[i])
  }

  /** The length of the longest prefix of `s` made of separators only. */
  function LeadingBlanks(s: seq<char>): (n: nat)
    ensures n <= |s|
    ensures forall i :: 0 <= i < n ==> Blank(s[i])
    ensures n == |s| || !Blank(s[n])
  {
    if s == [] || !Blank(s[0]) then 0 else 1 + LeadingBlanks(s[1..])
  }

  /** `s` without its leading separators: what is left after skipping blanks. */
  function SkipBlanks(s: seq<char>): (r: seq<char>)
    ensures |r| <= |s|
    ensures s == s[..|s| - |r|] + r
    ensures AllBlank(s[..|s| - |r|])
    ensures r == [] || !Blank(r[0])
  {
    s[LeadingBlanks(s)..]
  }

  /** The length of the longest prefix of `s` that holds no separator. */
  function WordLength(s: seq<char>): (n: nat)
    ensures n <= |s|
    ensures forall i :: 0 <= i < n ==> !Blank(s[i])
    ensures n == |s| || Blank(s[n])
  {
    if s == [] || Blank(s[0]) then 0 else 1 + WordLength(s[1..])
  }

  /**
   * A text cut at its first separator: the word before it, the separator
   * itself (None when the text ends first) and the rest after it.
   */
  datatype Split = Split(word: string, terminator: Option<char>, rest: seq<char>)

  /** The characters a split was made from, in their original order. */
  function Joined(sp: Split): seq<char>
  {
    sp.word + (if sp.terminator.Some? then [sp.terminator.value] else []) + sp.rest
  }

  /** A split that reading a word off the front of a text can produce. */
  predicate WellCut(sp: Split)
  {
    NoBlank(sp.word) &&
    (sp.terminator.Some? ==> Blank(sp.terminator.value)) &&
    (sp.terminator.None? ==> sp.rest == [])
  }

  /**
   * Reads one word off the front of `s` without skipping anything first:
   * the characters up to the first separator, then that separator, which
   * is consumed too. Nothing is lost: the pieces join back into `s`.
   */
  function TakeWord(s: seq<char>): (r: Split)
    ensures WellCut(r)
    ensures Joined(r) == s
  {
    var n := WordLength(s);
    if n == |s| then
      assert s[..n] == s;
      Split(s, None, [])
    else
      assert s == s[..n] + [s[n]] + s[n + 1..];
      Split(s[..n], Some(s[n]), s[n + 1..])
  }

  /** The two properties of TakeWord pin its result down: any well-cut split of `s` is TakeWord(s). */
  lemma TakeWordUnique(s: seq<char>, sp: Split)
    requires WellCut(sp) && Joined(sp) == s
    ensures sp == TakeWord(s)
  {
    var r := TakeWord(s);
    var k := |sp.word|;
    var n := WordLength(s);
    // The shorter of the two words would be followed in `s` by a separator
    // that the longer one contains.
    assert sp.word == s[..k];
    assert forall i :: 0 <= i < k ==> !Blank(s[i]);
    assert forall i :: 0 <= i < n ==> !Blank(s[i]);
    assert sp.terminator.Some? ==> s[k] == sp.terminator.value;
    assert k == n;
  }

  /** Skipping separators twice skips nothing more than skipping once. */
  lemma SkipBlanksIdempotent(s: seq<char>)
    ensures SkipBlanks(SkipBlanks(s)) == SkipBlanks(s)
  {
  }

  /** A text starting with a separator yields the empty word and loses just that separator. */
  lemma LeadingBlankGivesEmptyWord(s: seq<char>)
    requires s != [] && Blank(s[0])
    ensures TakeWord(s) == Split("", Some(s[0]), s[1..])
  {
  }

  /** The word is empty exactly when the text is empty or starts with a separator. */
  lemma TakeWordEmptyIff(s: seq<char>)
    ensures TakeWord(s).word == [] <==> (s == [] || Blank(s[0]))
  {
  }

  /** After skipping separators, the word read is non-empty exactly when some non-separator is left in the text. */
  lemma SkippedWordNonEmptyIff(s: seq<char>)
    ensures TakeWord(SkipBlanks(s)).word != [] <==> exists i :: 0 <= i < |s| && !Blank(s[i])
  {
  }
}
