# Braille typing visualizer: a verified model of its encoder and keystroke history

The application shows, for every key typed, the Grade-1 Braille cell of the
character, its Unicode Braille glyph and a display label, and keeps a history
of the typed characters. This project models its two cores in Dafny.

- `braille.dfy`, module `Braille`: the encoder. `BrailleMap` is the fixed
  45-entry table (a–z, 0–9, space and `. , ! ? ; : - '`), written as a `match`
  that yields `None` for a missing key, in the same way as a record lookup
  yields `undefined`. `CharToBraille` folds the character to lower case, looks
  it up and falls back to the blank cell. `GetBrailleUnicode` is the six-step
  `|=` computation of the glyph offset on a 32-bit bit-vector (the width of
  JavaScript's bitwise operators). It is proved against the specification
  function `Glyph`, which is U+2800 plus `Pack(cell)`. `Pack` and its inverse
  `Unpack` map six-dot cells to the numbers 0..63 and back. `GetCharLabel`
  gives the display label.
- `typing_page.dfy`, module `TypingPage`: the page's key handling. The
  character class that decides which keys are accepted is `PrintableChar` and
  `Printable`. The two pieces of page state are the fields `history` (the typed
  keys, as strings) and `currentChar` of class `Session`. `HandleKey` and
  `HandleClear` are the transitions. `TypedText` is the history joined without
  a separator. `Valid()` is the invariant that every transition keeps, starting
  from the initial state: every entry is a printable one-character key, and
  `currentChar` is absent exactly when the history is empty and is otherwise
  its last entry.

Code points are modelled as integers rather than one-character strings.

## Model

| member | source | states |
|---|---|---|
| `Braille.ToLower` | src/lib/braille.ts:55 | lower-casing changes exactly the upper-case letters A–Z, turns each into the lower-case letter at the same place in the alphabet, and never yields an upper-case letter |
| `Braille.ToUpper` | src/lib/braille.ts:75 | upper-casing changes exactly the lower-case letters a–z, turns each into the upper-case letter at the same place in the alphabet, never yields a lower-case letter, and keeps the lower-case form of the character |
| `Braille.CaseRoundTrip` | src/lib/braille.ts:55-75 | lower-casing an upper-cased lower-case letter, and upper-casing a lower-cased upper-case letter, give the letter back; A–Z and a–z are paired letter by letter, in alphabet order |
| `Braille.BrailleMap` | src/lib/braille.ts:6-52 | the table holds a key exactly for a–z, 0–9, space and `. , ! ? ; : - '`, and every entry has six dots |
| `Braille.CharToBraille` | src/lib/braille.ts:54-57 | every character gives a cell of exactly six dots; a character whose lower-case form is not a table key gives the blank cell; the cell is blank exactly for space and for characters outside the alphabet |
| `Braille.CaseInsensitive` | src/lib/braille.ts:55 | a character, its upper-case form and its lower-case form have the same cell |
| `Braille.UpperLettersShareCells` | src/lib/braille.ts:55 | each of A–Z has the cell of the matching letter of a–z |
| `Braille.DigitsAreLetters` | src/lib/braille.ts:7-42 | the digits 1–9 and 0 have exactly the cells of a–i and j |
| `Braille.PackBound` | src/lib/braille.ts:63-69 | a cell of n dots packs to a number below 2^n |
| `Braille.UnpackPack` | src/lib/braille.ts:62-69 | decoding the packed bits of a cell gives the cell back |
| `Braille.PackUnpack` | src/lib/braille.ts:62-69 | packing the first n bits of a number below 2^n gives the number back, so n-dot cells and offsets below 2^n correspond one to one |
| `Braille.UnpackBit` | src/lib/braille.ts:62-69 | entry k of the decoded cell is bit k of the offset |
| `Braille.PackInjective` | src/lib/braille.ts:63-69 | two cells of the same length have the same offset only when they are equal |
| `Braille.PackSix` | src/lib/braille.ts:63-69 | the offset of a six-dot cell is the sum of 1, 2, 4, 8, 16 and 32 over its raised dots 1 to 6 |
| `Braille.GetBrailleUnicode` | src/lib/braille.ts:59-71 | the six OR steps give U+2800 plus the packed cell; the result lies in U+2800..U+283F, and decoding its offset gives the character's cell |
| `Braille.GlyphInRange` | src/lib/braille.ts:63-70 | every glyph lies in the six-dot range U+2800..U+283F |
| `Braille.GlyphRoundTrip` | src/lib/braille.ts:62-69 | bit k of the glyph's offset is set exactly when dot k + 1 of the character's cell is raised, for k in 0..5 |
| `Braille.GlyphInjective` | src/lib/braille.ts:59-70 | two characters have the same glyph exactly when they have the same cell |
| `Braille.GlyphBlank` | src/lib/braille.ts:43-70 | the glyph is exactly U+2800 for space and for every character outside the table |
| `Braille.GetCharLabel` | src/lib/braille.ts:73-76 | the label of space is "Space"; every other character gives a one-character label: a lower-case letter is upper-cased, anything else is unchanged |
| `Braille.LabelSameCell` | src/lib/braille.ts:73-76 | the label of a character other than space has the same cell as the character |
| `Braille.Examples` | src/lib/braille.ts:54-76 | worked cases: `a` gives U+2801 and "A"; space gives U+2800 and "Space"; `Z` gives U+2835; `9` has the cell of `i` and gives U+280A; `@` gives the blank cell, U+2800 and "@" |
| `TypingPage.PrintableChar` | src/pages/Index.tsx:8 | a character is in the accepted class exactly when its lower-case form is a letter a–z, a digit, space or one of `. , ! ? ; : - '` |
| `TypingPage.Printable` | src/pages/Index.tsx:25 | a key name passes the anchored test exactly when it is one character whose lower-case form is in the Braille table's alphabet (a–z, 0–9, space, `. , ! ? ; : - '`) |
| `TypingPage.PrintableIffMapped` | src/pages/Index.tsx:8 | a character is accepted exactly when its lower-case form is a key of the Braille table; an accepted character other than space has a non-blank cell |
| `TypingPage.Join` | src/pages/Index.tsx:56 | joining one-character keys gives one character per key, in order |
| `TypingPage.JoinAppend` | src/pages/Index.tsx:56 | joining a history with one more key appends that key to the joined text |
| `TypingPage.JoinDropLast` | src/pages/Index.tsx:19 | dropping the last one-character key drops the last character of the joined text |
| `TypingPage.Session.TypedText` | src/pages/Index.tsx:56 | the typed text has one character per history entry, character i being entry i |
| `TypingPage.Session.constructor` | src/pages/Index.tsx:11-12 | the page starts with an empty history and no current character, and the invariant holds |
| `TypingPage.Session.HandleKey` | src/pages/Index.tsx:15-33 | Backspace removes only the last entry (nothing on an empty history) and makes the current character the new last entry or none; a printable key is appended, becomes the current character and extends the typed text by itself; any other key changes nothing; the invariant is kept |
| `TypingPage.Session.HandleClear` | src/pages/Index.tsx:51-54 | the history, the current character and the typed text become empty, and the invariant is kept |

## Left out

- Case mapping covers ASCII letters only. In JavaScript, `toLowerCase` also maps one non-ASCII character onto a table key: the Kelvin sign U+212A becomes `k`. `toUpperCase` can also turn one character into several, as `ß` into "SS". The model gives such characters the blank cell and leaves their labels unchanged.
- The lookup is modelled on single characters. The callers only pass one-character keys. A multi-character string is never a table key, though in JavaScript a string such as "constructor" would reach an inherited object property.
- `String.fromCharCode` is modelled as the integer code point it would be given.
- Speech output (`speakChar` on an accepted key, `speakText` of the typed text, the audio toggle and all of src/lib/tts.ts) is left out. These are calls into the browser's speech API.
- Rendering, animation, icons, the two-column layout of a cell in src/components/BrailleCell.tsx, and the `keydown` listener wiring are left out. They are presentation only.
- React's deferred state updates are modelled as plain sequential assignments, one handler call at a time.
