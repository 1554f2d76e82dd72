# tolkien word reader, modelled in Dafny

tolkien is an early prototype of an indexer for a Ruby-like language. Its
only code with behaviour is a small word reader. The reader runs over a
character cursor and splits text at separators: a space or a line feed,
nothing else. The code also declares the type flags and records that the
words are meant to fill. The repository has two copies of the reader:

- `src/reader.rs` works over a `Peekable<Chars>`. `skip_blank` consumes the
  leading separators. `next_word` skips them, collects characters up to the
  next separator, and consumes that separator too. `next_word_expected`
  unwraps the result.
- `src/tokenize.rs` is the older copy. It works over a plain `Chars`, and its
  `skip_blank` builds a lazy `skip_while` adapter and drops it without
  polling it. So that copy skips nothing, and `next_word` reads from wherever
  the cursor stands.
- `src/definitions.rs` declares `Type`, a `bitflags` set over a `u32` in which
  `Nil` is the empty set. It also declares the records `Namespace`,
  `Function`, `Param` and `Value`, the constant `Namespace::DELIMITER`, and a
  `test` of one flag identity.

Layout:

- `options.dfy`: `Option`.
- `words.dfy` (module `Words`): the word syntax as pure functions. `Blank`
  is defined once, because both source files define it the same way.
  `LeadingBlanks` and `SkipBlanks` give the separators that lead a text.
  `WordLength` and `TakeWord` cut off the first word, its terminator and the
  rest, as a `Split`. Lemmas state uniqueness, idempotence and emptiness.
- `cursor.dfy` (module `Cursor`): `CharCursor`, a class over a fixed text with
  a position. It stands for the standard library's `Chars` and
  `Peekable<Chars>`, with `Peek` and `Next`.
- `reader.dfy` (module `Reader`) and `tokenize.dfy` (module `Tokenize`): each
  file's `skip_blank` and `next_word`, as methods with loops that move a
  `CharCursor`. Each is proved against the functions of `Words`.
- `definitions.dfy` (module `Definitions`): `Type` as a 32-bit vector that
  can hold only the declared bits. `Flags` maps a `Type` to the set of named
  flags it holds. The module also holds the records as datatypes, the
  default namespace and `DELIMITER`.

`Type` is modelled as the code declares it: combinable bit flags over a `u32`.

## Model

| member | source | states |
|---|---|---|
| Words.Blank | src/reader.rs:8-10 | a space or a line feed and nothing else; src/tokenize.rs:19-21 defines the same |
| Reader.TabAndReturnNotBlank | src/reader.rs:8-10 | a tab and a carriage return are not separators; only `' '` and `'\n'` are |
| Reader.DelimiterIsBlank | src/definitions.rs:47 | `Namespace::DELIMITER` holds exactly the characters that `blank` accepts |
| Words.LeadingBlanks | src/reader.rs:28-33 | the count is the length of the longest all-separator prefix: every character before it is a separator, and the one at it (if any) is not |
| Words.SkipBlanks | src/reader.rs:27-34 | the result is a suffix of the input; what was dropped is all separators; the result is empty or starts with a non-separator |
| Words.SkipBlanksIdempotent | src/reader.rs:28-31 | skipping separators a second time consumes nothing |
| Reader.SkipBlankExample | src/reader.rs:59-64 | skipping `" \nHello there"` leaves `"Hello there"` |
| Reader.SkipBlank | src/reader.rs:27-34 | the cursor loses exactly its leading separators and nothing else |
| Cursor.CharCursor.constructor | src/reader.rs:60 | `chars().peekable()` yields a cursor at the start of the text |
| Cursor.CharCursor.Peek | src/reader.rs:28 | `peek` gives the next character, or None at the end, and consumes nothing |
| Cursor.CharCursor.Next | src/reader.rs:32 | `next` gives the next character, or None at the end, and drops it from the cursor |
| Words.WordLength | src/reader.rs:40-45 | the count is the length of the longest separator-free prefix: no separator before it, and a separator (or the end) at it |
| Words.TakeWord | src/reader.rs:39-46 | the word holds no separator; the terminator, if any, is a separator; with no terminator nothing is left; word, terminator and rest join back into the input |
| Words.TakeWordUnique | src/reader.rs:40-45 | any split with those properties is the one `TakeWord` returns, so the properties define the collected word |
| Words.TakeWordEmptyIff | src/tokenize.rs:39-45 | the word read at the cursor is empty exactly when the input is empty or starts with a separator |
| Words.SkippedWordNonEmptyIff | src/reader.rs:37-46 | after skipping, the word is non-empty exactly when some non-separator is left in the input |
| Reader.CollectWord | src/reader.rs:39-45 | the loop consumes the word and the separator that ends it; it keeps the word's characters in order; the cursor is left with what follows |
| Reader.NextWord | src/reader.rs:37-47 | always `Some`; the word is `TakeWord` of the input with its leading separators skipped; the cursor keeps only what follows the word's terminator |
| Reader.NextWordExpected | src/reader.rs:49-51 | the unwrap never fails, because `next_word` is never `None`; the result is the word that `next_word` reads |
| Reader.NextWordNoLoss | src/reader.rs:37-46 | leading separators, word, terminator and rest join back into the input |
| Tokenize.SkipBlank | src/tokenize.rs:31-33 | as written, the cursor is left exactly as it was |
| Tokenize.CollectWord | src/tokenize.rs:39-44 | the loop consumes the word at the cursor and the separator that ends it; it keeps the word's characters in order |
| Tokenize.NextWord | src/tokenize.rs:36-46 | always `Some`; the word is `TakeWord` of the input with nothing skipped; the cursor keeps only what follows the terminator; `Some("")` at end of input |
| Words.LeadingBlankGivesEmptyWord | src/tokenize.rs:36-45 | on input that starts with a separator, the older `next_word` yields `""` and consumes only that separator |
| Tokenize.DivergesFromReader | src/tokenize.rs:31-45 | on input that starts with a separator and still holds a word, the older copy returns `""` while `src/reader.rs` returns a non-empty word |
| Tokenize.AgreesWithReaderWithoutLeadingBlank | src/tokenize.rs:36-45 | on input that does not start with a separator, both copies read the same word and leave the same rest |
| Definitions.Union | src/definitions.rs:38 | the bitwise or of `a` and `b` holds exactly the flags of `a` and those of `b` |
| Definitions.Intersection | src/definitions.rs:39 | `a & b` holds exactly the flags that `a` and `b` share |
| Definitions.FlagsInjective | src/definitions.rs:26-35 | two types that hold the same named flags are the same value, so the bits encode a set faithfully |
| Definitions.ContainsIsSubset | src/definitions.rs:26-35 | `a.contains(b)` holds exactly when the flags of `b` are a subset of those of `a` |
| Definitions.NilIsEmpty | src/definitions.rs:28 | `Nil` holds no flag; or-ing `Nil` into `t` gives `t`; every type contains `Nil` |
| Definitions.SingleFlagsDisjoint | src/definitions.rs:29-33 | `Bool`, `Integer`, `Float`, `String` and `Unknown` each hold exactly one flag, and no two of them share a bit |
| Definitions.UnknownDisjointFromPrimitives | src/definitions.rs:29-33 | `Unknown` shares no bit with any type that does not hold it, for example any union of concrete primitives |
| Definitions.Test | src/definitions.rs:37-40 | `Nil` or-ed with `String`, then and-ed with `String`, gives `String` |
| Definitions.DefaultNamespace | src/definitions.rs:4-10 | the derived default has an empty name and empty `children`, `funs` and `vars` |

## Left out

- `src/main.rs` is left out. It is the entry point: it loads a hard-coded path and prints an error.
- `tokenize::tokenize` (src/tokenize.rs:6-10) is left out. It only reads a file from disk and discards it.
- The `reader` test (src/reader.rs:68-76) is left out, because it depends on the contents of `assets/test.rb` on disk.
- `test_stuff` (src/tokenize.rs:52-55) is left out. It prints a string's capacity, which is an allocator detail.
- `TokenStream` (src/reader.rs:13-17) is left out. It is never built, and its fields are never updated.
- The `prelude` module named in `src/main.rs` is not part of this model.
- Cursor.CharCursor: `Peekable`'s one-item look-ahead buffer is not modelled. A peek reads the next character and does not move the cursor, which is what callers can observe.
- Cursor.CharCursor: text is a sequence of characters. UTF-8 decoding in `Chars` is not modelled.
- The `bitflags` crate is modelled through the operations the code uses (`|` and `&`), plus `contains`, which states the promise that every type contains `Nil`. Complement, `all` and the conversions from raw bits are not modelled.
- The `Tokenize` trait in `src/definitions.rs` is not modelled as an interface. Only its one constant, `DELIMITER`, is modelled.
- `Function.key_param`, a `hashbrown::HashMap`, is modelled as a Dafny `map`. The field `returns` is named `returnType`, because `returns` is a Dafny keyword.
- The records (`Function`, `Param`, `Value`) are never built or read by the code, so the model only declares them.

## Findings

| source | as written | input that shows it | evidently intended | confidence | as-written member | corrected member |
|---|---|---|---|---|---|---|
| src/tokenize.rs:31-33 | `skip_blank` builds a lazy `skip_while` adapter and drops it, so nothing is skipped | `" Hello"`: `next_word` returns `Some("")` instead of `Some("Hello")` | consume the leading separators, as the loop in src/reader.rs:27-34 does | high; not executed | Tokenize.DivergesFromReader | Reader.SkipBlank |
