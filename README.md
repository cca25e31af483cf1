# love-letter, modelled in Dafny

love-letter publishes password-protected letters as static files. An
authoring script takes each raw letter file, whose first line is the
password and whose rest is the letter. It encrypts the letter into an
envelope and writes the envelope, in base64, under the letter's name. The
web page fetches an envelope and decrypts it with the password from the
URL. It then cuts the plaintext into a letter: a date, a greeting, body
paragraphs, a closing, a postscript and a seal.

This project models the three pieces of logic behind that:

- **The letter parser** (`src/components/LetterDisplay.tsx`):
  - `parseDateLine`;
  - the date and seal scans of `LetterDisplay`;
  - `parseLetterContent`, with its greeting, postscript and closing scans and its paragraph split;
  - the three prefix tables.
- **The envelope** (`src/crypto/crypto.ts`):
  - the base64 loops `toBase64` and `fromBase64`, over `btoa` (section 4 of RFC 4648) and `atob` (the forgiving base64 decode of the WHATWG HTML standard);
  - the layout `salt[16] ‖ iv[12] ‖ ciphertext+tag` that `encrypt` writes and `decrypt` slices;
  - the error paths of `decrypt`;
  - the validators `validatePassword` and `validateLetterId`.
- **The authoring batch** (`scripts/encrypt-letters.mjs`):
  - `encryptText`;
  - the per-file accept/skip decision;
  - the loop over the `.txt` files.

Modules:

- `Text`: JavaScript's `trim`, ASCII lowercasing, and `split`/`join` on one character.
- `Paragraphs`: `split(/\n\s*\n/)`, character by character.
- `LetterParser`: the parser; examples are in `LetterExamples`.
- `Base64`: the transport encoding.
- `Validators`: the two validators.
- `Envelope`: `encrypt` and `decrypt`.
- `Authoring`: the script.
- `Wrappers`: `Option` and `Result`.

Each loop of the source is a method, proved equal to a function that
specifies it. The properties are proved of those functions.

Foreign calls are fields of a `Primitives` value: PBKDF2-SHA-256,
AES-256-GCM, and the UTF-8 encoder and decoder. The only thing required of
them is the predicate `Envelope.Sound`. It says three things:

- UTF-8 decoding undoes encoding, except that the decoder drops one leading
  byte-order mark (U+FEFF). That is what `new TextDecoder()` does at
  `crypto.ts` line 101, since its `ignoreBOM` option is left false.
- The GCM tag is 16 bytes.
- GCM decryption undoes encryption.

`Sound` appears only as a precondition. So `decrypt(encrypt(t))` is `t`
only when `t` does not start with U+FEFF (`Envelope.DecryptEncrypt`,
`Envelope.BomDropped`). The authoring script trims every letter, and
U+FEFF is whitespace to `trim`, so what it writes always decrypts to the
letter itself (`Authoring.WriteForDecrypts`). The random salt and iv are
parameters.

In four places the code does not do what one might expect, and the model
follows the code:

- One might expect the closing scan to stop at a blank line that comes
  before any closing keyword. The code does not stop there: it walks up to
  the top of the text before the postscript, looking for a keyword
  (`LetterParser.ClosingStartsAtLastKeyword`). The lines it collects on the
  way are discarded, and the `break` at lines 80-82 is unreachable.
- One might expect a letter without greeting, closing or postscript
  markers to become one paragraph. The code makes all of its lines body lines
  (`LetterParser.NoMarkersAllBody`). A whitespace-only line among them
  still splits the body into several paragraphs: the lines `1`, blank,
  `2` give two (`LetterExamples.NoMarkersTwoParagraphs`).
- One might expect invalid UTF-8 to be reported as a malformed
  envelope. `TextDecoder` is not fatal, so the code never raises that
  error; the model's decoder is total.
- One might expect the id and the password to be validated before any
  cryptographic work. `decrypt` validates neither the id nor the password,
  and the authoring script does not check the letter id against
  `validateLetterId` (`Authoring.IdNotValidated`).

## Model

| member | source | states |
|---|---|---|
| LetterParser.MatchesFoldedSome | src/components/LetterDisplay.tsx:37 | the greeting/closing table test holds iff some entry, lowercased, prefixes the lowercased line, or the entry prefixes the line itself |
| LetterParser.MatchesLoweredSome | src/components/LetterDisplay.tsx:52 | the postscript table test holds iff some entry, not lowercased, prefixes the lowercased line or the line |
| LetterParser.MatchesFoldedEntry | src/components/LetterDisplay.tsx:37 | a line that starts with a table entry matches the table |
| LetterParser.EmptyMatchesNothing | src/components/LetterDisplay.tsx:35 | with no empty table entry, an empty trimmed line is never a greeting, closing or postscript |
| LetterParser.StandardHasNoEmptyEntry | src/components/LetterDisplay.tsx:5-22 | the three tables of the component have no empty entry |
| LetterParser.FirstNonBlankSpec | src/components/LetterDisplay.tsx:31-44 | every line before the first non-blank line is blank |
| LetterParser.LastNonBlankSpec | src/components/LetterDisplay.tsx:138-145 | every line after the last non-blank line is blank; without one, all lines from the lower bound are blank |
| LetterParser.GreetingSplit | src/components/LetterDisplay.tsx:31-44 | a non-empty greeting is the trimmed line just before `startIdx` and matches the table; with no greeting, the line at `startIdx` is the first non-blank line and is not a greeting |
| LetterParser.GreetingSplitSpec | src/components/LetterDisplay.tsx:31-44 | only blank lines are skipped before the greeting, or before `startIdx` when there is none |
| LetterParser.FindGreeting | src/components/LetterDisplay.tsx:31-44 | the greeting loop computes `GreetingSplit` |
| LetterParser.LastDecisiveSpec | src/components/LetterDisplay.tsx:49-59 | the postscript loop stops at the last line that is non-blank or a postscript line; every line after it is neither |
| LetterParser.PsStart | src/components/LetterDisplay.tsx:46-59 | a postscript start is an index of `remainingLines` whose trimmed line is a postscript line |
| LetterParser.FindPsStart | src/components/LetterDisplay.tsx:46-59 | the postscript loop yields `PsStart`, or -1 |
| LetterParser.PsStartIsLastNonBlank | src/components/LetterDisplay.tsx:49-59 | the postscript starts at the last non-blank line if that line is a postscript line, and nowhere otherwise |
| LetterParser.JoinTrimmedOneLine | src/components/LetterDisplay.tsx:104 | one non-blank line followed by blank lines joins to that line, trimmed |
| LetterParser.PsIsLastLine | src/components/LetterDisplay.tsx:46-64 | `ps` is the trimmed last non-blank remaining line when it is a postscript line, else empty |
| LetterParser.PsHasNoLineBreak | src/components/LetterDisplay.tsx:104 | `ps` never contains a line feed |
| LetterParser.LastClosing | src/components/LetterDisplay.tsx:68-74 | a closing index is within `beforePs` and its trimmed line starts with a closing keyword |
| LetterParser.LastClosingSpec | src/components/LetterDisplay.tsx:68-83 | no line after the closing index starts with a keyword; with no index, no line does |
| LetterParser.LastClosingAt | src/components/LetterDisplay.tsx:68-74 | a closing line with no closing line below it is the one the scan stops at |
| LetterParser.FindClosingStart | src/components/LetterDisplay.tsx:66-83 | the closing loop yields `LastClosing` or -1, and the lines it collects are the trimmed non-blank lines below that index |
| LetterParser.ClosingStartsAtLastKeyword | src/components/LetterDisplay.tsx:66-91 | the body is `beforePs` up to the last keyword line, and the closing starts with that line; with no keyword line, the closing is empty and the body is all of `beforePs` |
| LetterParser.SegmentsPartition | src/components/LetterDisplay.tsx:47-91 | the head and `remainingLines` make up the lines; `beforePs` and `psLines` make up `remainingLines`; `bodyLines` and `closingLines` make up `beforePs` |
| LetterParser.Segment | src/components/LetterDisplay.tsx:24-91 | the greeting index lies within the lines; `SegmentsPartition`, `PsIsLastLine` and `ClosingStartsAtLastKeyword` state how the lines are cut |
| LetterParser.ParseLines | src/components/LetterDisplay.tsx:24-106 | the parse of split lines; `UsualShapeParses`, `NoMarkersAllBody` and `BlankLinesParseEmpty` state what it gives |
| LetterParser.ParseContent | src/components/LetterDisplay.tsx:24-106 | `parseLetterContent`; `ParsedParagraphsAreClean` and `PsHasNoLineBreak` state what it gives, and `ParseLetterContent` is proved equal to it |
| LetterParser.ParsedParagraphsAreClean | src/components/LetterDisplay.tsx:93-98 | every paragraph is non-empty, has no whitespace at either end and spans no whitespace-only line |
| LetterParser.NoMarkersAllBody | src/components/LetterDisplay.tsx:24-106 | with no greeting, closing or postscript line, those three are empty and the body is every line from the first non-blank one |
| LetterParser.BlankLinesParseEmpty | src/components/LetterDisplay.tsx:24-106 | whitespace-only input parses to an empty letter |
| LetterParser.UsualShapeSegments | src/components/LetterDisplay.tsx:24-91 | greeting, paragraph, blank line, closing and postscript lines are cut into exactly those segments |
| LetterParser.EndsClosingPs | src/components/LetterDisplay.tsx:46-91 | when the last two lines are a closing line and a postscript line, they are the closing and the postscript, and the lines between the greeting and them are the body |
| LetterParser.EndsPs | src/components/LetterDisplay.tsx:46-64 | when the last line is a postscript line, it alone is `psLines` and the lines before it are `beforePs` |
| LetterParser.PsLast | src/components/LetterDisplay.tsx:46-58 | a postscript line at the end is where the postscript starts |
| LetterParser.ClosingLast | src/components/LetterDisplay.tsx:67-74 | a closing line at the end is where the closing starts |
| LetterParser.OneParagraphLine | src/components/LetterDisplay.tsx:93-98 | a paragraph line followed by a blank line is one paragraph |
| LetterParser.UsualShapeParses | src/components/LetterDisplay.tsx:24-106 | greeting, paragraph, blank line, closing and postscript lines parse to exactly those parts |
| LetterParser.ParseLetterContent | src/components/LetterDisplay.tsx:24-106 | the imperative parser computes the functional specification `ParseContent` |
| LetterParser.ParseDateLine | src/components/LetterDisplay.tsx:108-117 | a line that is not an eight-digit stamp comes back trimmed; the result is empty iff the line is blank |
| LetterParser.ShowNat | src/components/LetterDisplay.tsx:111-114 | the decimal form of a number is digits with no leading zero |
| LetterParser.ShowNatValue | src/components/LetterDisplay.tsx:111-114 | the decimal form of a number reads back as the number |
| LetterParser.PaddedValue | src/components/LetterDisplay.tsx:111-113 | `parseInt` of a zero-padded number gives the number |
| LetterParser.DateStampReadsBack | src/components/LetterDisplay.tsx:108-117 | the stamp `YYYYMMDD` becomes `Y年M月D日` with leading zeros dropped and no range check |
| LetterParser.DateScan | src/components/LetterDisplay.tsx:122-133 | the date is the parse of the line before `startLine`, which is non-blank; otherwise the date is empty and `startLine` is the line count |
| LetterParser.DateScanSpec | src/components/LetterDisplay.tsx:122-133 | only blank lines come before the date line, and the date is empty iff every line is blank |
| LetterParser.FindDate | src/components/LetterDisplay.tsx:122-133 | the date loop computes `DateScan` |
| LetterParser.SealScan | src/components/LetterDisplay.tsx:135-145 | the seal is the trimmed non-blank line at `endLine >= startLine`, or the default `爱` with `endLine` the line count |
| LetterParser.SealScanSpec | src/components/LetterDisplay.tsx:135-145 | only blank lines follow the seal line; with the default seal, every line from `startLine` on is blank |
| LetterParser.FindSeal | src/components/LetterDisplay.tsx:135-145 | the seal loop computes `SealScan` |
| LetterParser.LetterParsesInterior | src/components/LetterDisplay.tsx:119-148 | the parser receives exactly the lines strictly between the date line and the seal line |
| LetterParser.LetterOf | src/components/LetterDisplay.tsx:119-148 | the rendered parts; `LetterDisplay` is proved equal to it and `LetterParsesInterior` says the parser sees exactly the lines between date and seal |
| LetterParser.InteriorReparses | src/components/LetterDisplay.tsx:147 | joining lines without line feeds and splitting again hands the parser the same lines |
| LetterParser.LetterDisplay | src/components/LetterDisplay.tsx:119-148 | the component computes `LetterOf` |
| LetterExamples.DateOutOfRange | src/components/LetterDisplay.tsx:108-117 | `20241399` gives `2024年13月99日` |
| LetterExamples.DateValentine | src/components/LetterDisplay.tsx:108-117 | `20240214` gives `2024年2月14日` |
| LetterExamples.DateNotAStamp | src/components/LetterDisplay.tsx:116 | ` 2024-02-14 ` comes back as `2024-02-14` |
| LetterExamples.PaddedNonStamp | src/components/LetterDisplay.tsx:109-116 | a line whose trimmed text is not eight characters long comes back as that text, whatever whitespace surrounds it |
| LetterExamples.TodayIsAGreeting | src/components/LetterDisplay.tsx:10 | a line starting with `today` is a greeting because of the `to` prefix |
| LetterExamples.DigitLineMatchesNoEntry | src/components/LetterDisplay.tsx:36 | a line starting with a digit starts with no entry of a table whose entries are non-empty and not digit-led, lowered or not |
| LetterExamples.DigitLineIsUnmarked | src/components/LetterDisplay.tsx:5-22 | a line of digits, or an empty one, is no greeting, closing or postscript under such tables |
| LetterExamples.DigitLinesAllBody | src/components/LetterDisplay.tsx:24-106 | lines of digits, the first non-empty, parse with empty greeting, closing and postscript and all of them as body |
| LetterExamples.NoMarkersTwoParagraphs | src/components/LetterDisplay.tsx:93-98 | the lines `1`, blank, `2` give two paragraphs and no other part |
| LetterExamples.ValentineLetter | src/components/LetterDisplay.tsx:119-148 | the worked example yields its date, greeting, one paragraph, closing, postscript and seal |
| Paragraphs.SeparatorAt | src/components/LetterDisplay.tsx:96 | a separator match starting at a position is the longest match of `\n\s*\n` there, and none exists when it yields nothing |
| Paragraphs.SplitReassembles | src/components/LetterDisplay.tsx:96 | the parts and the removed separators rebuild the text in order, and every separator matches `\n\s*\n` |
| Paragraphs.RegexSplit | src/components/LetterDisplay.tsx:96 | `split(/\n\s*\n/)` gives at least one part; `SplitReassembles` and `PartsHaveNoSeparator` give its meaning |
| Paragraphs.ParagraphsOf | src/components/LetterDisplay.tsx:94-98 | split, trim and filter leave no empty paragraph; `ParagraphsAreClean` adds that each is trimmed and separator-free |
| Paragraphs.PartsHaveNoSeparator | src/components/LetterDisplay.tsx:96 | no part of the split contains a match of the separator |
| Paragraphs.ParagraphsAreClean | src/components/LetterDisplay.tsx:95-98 | the paragraphs are non-empty, trimmed and contain no separator |
| Paragraphs.SplitWithoutLineFeed | src/components/LetterDisplay.tsx:96 | a text without a line feed is one part |
| Text.JoinSplit | src/components/LetterDisplay.tsx:25 | joining the parts of a split gives the string back |
| Text.SplitJoin | src/components/LetterDisplay.tsx:147 | splitting a join of separator-free parts gives the parts back |
| Text.SplitCountsSeparator | scripts/encrypt-letters.mjs:40-42 | a split has two or more parts iff the separator occurs |
| Text.TrimAround | src/crypto/crypto.ts:80 | whitespace on either side of a string does not change its trim |
| Text.TrimIsInfix | src/components/LetterDisplay.tsx:34 | the trim of a string is a slice of it with only whitespace cut off before and after |
| Text.TrimIdempotent | src/components/LetterDisplay.tsx:94 | trimming twice is trimming once |
| Text.Trim | src/components/LetterDisplay.tsx:34 | `trim` never lengthens a string and gives the empty string iff the string is all whitespace; `TrimIsInfix`, `TrimAround` and `TrimIdempotent` give the rest |
| Text.Lower | src/components/LetterDisplay.tsx:36 | `toLowerCase` keeps the length and lowers each character on its own |
| Text.Split | src/components/LetterDisplay.tsx:25 | `split` gives at least one part and no part contains the separator; `JoinSplit` makes `join` its inverse |
| Text.Join | src/components/LetterDisplay.tsx:94 | `join` with one separator; `SplitJoin` makes `split` its inverse on separator-free parts |
| Base64.DigitOf | src/crypto/crypto.ts:10 | each six-bit value has a digit of the alphabet, which reads back as the value |
| Base64.Padding | src/crypto/crypto.ts:10 | `btoa` appends `=` characters, two after a final octet, one after two final octets, none otherwise |
| Base64.Encode | src/crypto/crypto.ts:10 | the encoding is a whole number of four-character quanta of digits and `=` |
| Base64.DecodeEncode | src/crypto/crypto.ts:5-20 | decoding an encoding gives back the bytes |
| Base64.OctetsOfSextets | src/crypto/crypto.ts:14 | decoding the six-bit values of bytes gives back the bytes |
| Base64.Decode | src/crypto/crypto.ts:14 | decoding fails iff, after whitespace and padding are removed, a quantum would be one character or a non-digit remains |
| Base64.StripAsciiWs | src/crypto/crypto.ts:14 | the forgiving decode's first step leaves no ASCII whitespace and never lengthens the text |
| Base64.DropPadding | src/crypto/crypto.ts:14 | dropping one or two final `=` from a text whose length is a multiple of four never lengthens it; `DropEncodedPadding` shows it removes exactly the padding `Encode` adds |
| Base64.Btoa | src/crypto/crypto.ts:10 | `btoa` fails iff some character is above U+00FF |
| Base64.Atob | src/crypto/crypto.ts:14 | `atob` fails iff decoding does, and otherwise yields a binary string |
| Base64.ToBase64 | src/crypto/crypto.ts:5-11 | the loop and `btoa` compute the base64 encoding of the array |
| Base64.FromBase64 | src/crypto/crypto.ts:13-20 | `atob` and the array loop compute the decode of the text, failing when `atob` throws |
| Validators.PasswordForms | src/crypto/crypto.ts:107-109 | the shape of `^[a-zA-Z0-9]+$` and "non-empty, every character alphanumeric" accept the same strings |
| Validators.PasswordExamples | src/crypto/crypto.ts:107-109 | `abc123` is accepted; `abc 123` and the empty string are not |
| Validators.SplitHyphenated | src/crypto/crypto.ts:111-113 | the hyphen-separated parts of a hyphenated tail are `[a-z0-9]+` groups, except possibly the first |
| Validators.HyphenatedSuffix | src/crypto/crypto.ts:111-113 | dropping the first character keeps a string well hyphenated, and a leading hyphen is followed by an id character |
| Validators.HyphenStep | src/crypto/crypto.ts:111-113 | a leading hyphen adds an empty first part in front of the parts of the rest |
| Validators.IdCharStep | src/crypto/crypto.ts:111-113 | a leading id character joins the first part of the rest |
| Validators.JoinedGroupsValid | src/crypto/crypto.ts:111-113 | `[a-z0-9]+` groups joined by single hyphens pass the character-wise id check |
| Validators.LetterIdForms | src/crypto/crypto.ts:111-113 | "groups joined by single hyphens" and "non-empty, `[a-z0-9-]` only, no hyphen leading, trailing or doubled" accept the same strings |
| Validators.LetterIdExamples | src/crypto/crypto.ts:111-113 | `my-letter-01` is accepted; `My_Letter`, `my--letter` and `letter-` are not |
| Envelope.Pack | src/crypto/crypto.ts:64-69 | the envelope's length is the sum of the lengths of its fields |
| Envelope.DeriveKey | src/crypto/crypto.ts:22-47 | PBKDF2 over the UTF-8 password, 100000 iterations, 32 bytes; `CorruptedBeforeKey` shows no key is derived on the corrupted path |
| Envelope.Sealed | src/crypto/crypto.ts:49-69 | the three fields `encrypt` writes; `SealedLength` and `UnpackPack` state that `decrypt` finds them again |
| Envelope.Unpack | src/crypto/crypto.ts:89-91 | the slices are 16 and 12 bytes, and the ciphertext is the rest |
| Envelope.UnpackPack | src/crypto/crypto.ts:89-91 | slicing a packed envelope gives back salt, iv and ciphertext |
| Envelope.PackUnpack | src/crypto/crypto.ts:89-91 | packing the slices of data of 28 or more bytes gives the data back |
| Envelope.Set | src/crypto/crypto.ts:67-69 | `set` writes the source at the offset and leaves every other element unchanged |
| Envelope.Encrypt | src/crypto/crypto.ts:49-72 | the result array is salt, then iv, then ciphertext, and the output is its base64 |
| Envelope.Encrypted | src/crypto/crypto.ts:71 | the output is whole base64 quanta |
| Envelope.Message | src/crypto/crypto.ts:82-103 | each error has a non-empty message |
| Envelope.Decrypt | src/crypto/crypto.ts:74-105 | the method computes `Decrypted`: trim, decode, length check, slice, derive, open |
| Envelope.Decrypted | src/crypto/crypto.ts:74-105 | what `decrypt` returns or throws; `CorruptedExactly`, `WrongPasswordExactly` and `DecryptEncrypt` state when each outcome happens |
| Envelope.TrimEncoded | src/crypto/crypto.ts:80 | trimming a base64 text changes nothing |
| Envelope.SealedLength | src/crypto/crypto.ts:85 | with a 16-byte GCM tag, an envelope made by `encrypt` passes the 29-byte check |
| Envelope.DecryptEncrypt | src/crypto/crypto.ts:49-105 | with sound primitives, `decrypt(encrypt(t, pw), pw)` returns `t` less one leading U+FEFF, whatever the salt and iv; it returns `t` itself when `t` does not start with U+FEFF |
| Envelope.BomDropped | src/crypto/crypto.ts:101 | a letter that starts with U+FEFF decrypts to the letter without it |
| Envelope.CorruptedExactly | src/crypto/crypto.ts:79-87 | the corrupted error happens iff the trimmed text does not decode or decodes to fewer than 29 bytes |
| Envelope.CorruptedBeforeKey | src/crypto/crypto.ts:85-93 | the corrupted verdict holds for every password and every primitive, so it comes before any key derivation |
| Envelope.WrongPasswordExactly | src/crypto/crypto.ts:93-104 | the wrong-password error happens iff the data is long enough and AES-GCM refuses it |
| Envelope.SurroundingBlanksIgnored | src/crypto/crypto.ts:80 | whitespace around the file's text does not change the outcome |
| Authoring.ConstantsAgree | scripts/encrypt-letters.mjs:10-17 | the script's salt and iv lengths, iteration count and key length are those of `crypto.ts` |
| Authoring.EncryptTextLayout | scripts/encrypt-letters.mjs:14-22 | the decoded output is salt, iv, encrypted bytes and tag in order, `28 + encrypted + tag` long |
| Authoring.EncryptText | scripts/encrypt-letters.mjs:14-22 | `encryptText` with the salt and iv as parameters; `EncryptTextLayout`, `EncryptTextIsEncrypt` and `ScriptOutputDecrypts` state what it writes |
| Authoring.FourParts | scripts/encrypt-letters.mjs:21 | the salt, the iv, the encrypted bytes and the tag are found again by slicing their concatenation at 16, 28 and `28 + encrypted` |
| Authoring.EncryptTextIsEncrypt | scripts/encrypt-letters.mjs:21 | given the same salt and iv, the script writes exactly what `encrypt` returns |
| Authoring.ScriptOutputDecrypts | scripts/encrypt-letters.mjs:14-22 | the page's `decrypt` turns the script's output back into the text less one leading U+FEFF, with the same password; into the text itself when it does not start with U+FEFF |
| Authoring.LetterId | scripts/encrypt-letters.mjs:49 | the letter id followed by `.txt` is the file name |
| Authoring.FirstLine | scripts/encrypt-letters.mjs:40-48 | the first split line is the text before the first line feed, and the rest, joined, is the text after it |
| Authoring.ClassifyDecides | scripts/encrypt-letters.mjs:40-64 | no line feed means too few lines; otherwise the checks of the trimmed first line and the trimmed rest run in the script's order, and the first failure names the reason |
| Authoring.Classify | scripts/encrypt-letters.mjs:40-64 | the accept or skip decision for one file; `ClassifyDecides` and `AcceptedIsValid` state it check by check |
| Authoring.AcceptedIsValid | scripts/encrypt-letters.mjs:47-64 | an accepted file has a password that `validatePassword` accepts and a non-empty letter, both trimmed, and keeps its file name |
| Authoring.IdNotValidated | scripts/encrypt-letters.mjs:49 | `My_Letter.txt` is accepted, though `validateLetterId` refuses `My_Letter` |
| Authoring.TwoLineFile | scripts/encrypt-letters.mjs:39-64 | a `.txt` file of a trimmed alphanumeric password, a line feed and a trimmed non-empty one-line letter is accepted with exactly those |
| Authoring.TxtFiles | scripts/encrypt-letters.mjs:28 | exactly the entries whose names end in `.txt` are kept |
| Authoring.CheckFile | scripts/encrypt-letters.mjs:40-64 | the loop body's checks compute `Classify` |
| Authoring.EncryptLetters | scripts/encrypt-letters.mjs:37-71 | the loop's writes and skips are those of the files in order |
| Authoring.ConcatStep | scripts/encrypt-letters.mjs:37-71 | one more file appends only its own writes or skips after those of the files before it |
| Authoring.ConcatLengths | scripts/encrypt-letters.mjs:37-71 | when each file gives one element to exactly one of the two lists, the two lists together have one element per file |
| Authoring.ConcatMember | scripts/encrypt-letters.mjs:37-71 | every element of the batch's output comes from the list of some file |
| Authoring.ChunkInConcat | scripts/encrypt-letters.mjs:37-71 | every element of a file's list is in the batch's output |
| Authoring.WriteOfSomeFile | scripts/encrypt-letters.mjs:66-68 | each write of the batch is a write of one of its files |
| Authoring.WriteForIncluded | scripts/encrypt-letters.mjs:66-68 | a write of one file is among the batch's writes |
| Authoring.WriteForDecrypts | scripts/encrypt-letters.mjs:66-68 | a write of one file exists only when the file is accepted, goes under that file's name, and decrypts to its letter with its password |
| Authoring.EveryFileAccounted | scripts/encrypt-letters.mjs:37-71 | writes and skips together number the files, so no skip stops the batch |
| Authoring.OneFileAccounted | scripts/encrypt-letters.mjs:37-71 | each `.txt` file gives exactly one write or one skip |
| Authoring.WriteComesFromAccepted | scripts/encrypt-letters.mjs:66-68 | one write at a time: it belongs to an accepted file, carries that file's name, and decrypts to its letter |
| Authoring.WritesComeFromAccepted | scripts/encrypt-letters.mjs:66-68 | each write belongs to an accepted file, carries that file's name, and decrypts to its letter with its password |
| Authoring.AcceptedAreWritten | scripts/encrypt-letters.mjs:66-68 | each accepted file's encryption is written under its name |
| Authoring.AcceptedFileWritten | scripts/encrypt-letters.mjs:66-68 | an accepted file gives one write: its encryption, under its name in the output directory |

## Left out

- PBKDF2-SHA-256, AES-256-GCM and the UTF-8 codecs are foreign calls, not defined here. `Envelope.Sound` is required of them, and only as a precondition. Tamper detection and wrong-password detection are probabilistic security properties and are not stated.
- Envelope.DecryptEncrypt: the round trip returns the letter less one leading U+FEFF, because `new TextDecoder()` drops a byte-order mark; this is the code's behaviour, not a weakening. JavaScript strings may hold lone surrogates, which `TextEncoder` turns into U+FFFD; a Dafny `char` is a Unicode scalar value, so such strings are outside the model.
- `crypto.getRandomValues` and `randomBytes` are not modelled: the salt and iv are parameters.
- `async` and `Promise` are not modelled: the functions are synchronous.
- `Text.Lower` lowers ASCII letters only, where `toLowerCase` is full Unicode; every prefix in the tables is ASCII lowercase or Chinese, so only mixed-case non-ASCII greetings could differ.
- `Text.Trim` and the `\s` of the paragraph split use the ECMAScript whitespace set listed in `Text.IsWs`. Characters of other Unicode space categories are not modelled.
- The prefix tables are a parameter (`LetterParser.Tables`) of the scans; the component's own tables are `LetterParser.Standard`.
- The parser's loops are one method each (`FindGreeting`, `FindPsStart`, `FindClosingStart`, `FindDate`, `FindSeal`), called in turn by `ParseLetterContent` and `LetterDisplay`, rather than one long function body.
- The JSX that `LetterDisplay` renders is not modelled.
- `ProductionPage.tsx` (URL parameters, `fetch`, React state) is not modelled; it maps every `decrypt` error to the wrong-password message. `ErrorMessage.tsx`, `main.tsx` and `vite.config.ts` are not modelled either.
- The script's file-system and console effects are not modelled: `mkdirSync`, `readdirSync`, `readFileSync`, `writeFileSync`, `console.log`, and the early `process.exit(0)` when there are no `.txt` files. The listing and contents are a parameter and the writes a result. With no `.txt` files the loop writes nothing, which is what the early exit does.
- `Authoring.LetterId` is `path.basename` for a name without a path separator, which is what `readdirSync` returns; `OUT_DIR` is a parameter and `path.join` is concatenation with `/`.
- Base64.Encode: states only that the length is a multiple of four, not the exact `4 * ceil(n / 3)`; the round trip `Base64.DecodeEncode` is the property relied on.
