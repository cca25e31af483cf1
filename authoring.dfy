/** The authoring batch of scripts/encrypt-letters.mjs: every `.txt` file
    of the raw-letters directory holds a password on its first line and
    the letter below it; each file is either skipped, with a reason, or
    encrypted into a file of the same name in the output directory. The
    directory listing, the file contents and the random salts and ivs are
    parameters; the writes are returned as a list. */
module Authoring {
  import opened Wrappers
  import opened Text
  import opened Base64
  import opened Validators
  import opened Envelope

  /** The script's constants (lines 10-12), and the key length passed to
      `pbkdf2Sync` (line 17). */
  const ScriptSaltLength: nat := 16
  const ScriptIvLength: nat := 12
  const ScriptIterations: nat := 100000
  const ScriptKeyLength: nat := 32

  /** The script and `crypto.ts` use the same salt and iv lengths, the
      same iteration count and the same key length (256 bits). */
  lemma ConstantsAgree()
    ensures ScriptSaltLength == SaltLength && ScriptIvLength == IvLength
    ensures ScriptIterations == Pbkdf2Iterations && ScriptKeyLength == KeyLength
  {
  }

  // ---------------------------------------------------------------------
  // encryptText (lines 14-22)
  // ---------------------------------------------------------------------

  /** `encryptText`: `salt ‖ iv ‖ encrypted ‖ authTag` in base64. The salt
      and the iv stand for the two calls to `randomBytes`. */
  function EncryptText(p: Primitives, plaintext: string, password: string, salt: seq<Byte>, iv: seq<Byte>): string {
    var key := p.pbkdf2(p.utf8Encode(password), salt, ScriptIterations, ScriptKeyLength);
    var (encrypted, authTag) := p.gcmEncrypt(key, iv, p.utf8Encode(plaintext));
    Encode(salt + iv + encrypted + authTag)
  }

  /** The bytes under the base64 of `encryptText` are the salt, the iv,
      the encrypted text and the tag, in that order, and their length is
      `28 + |encrypted| + |authTag|`. */
  lemma EncryptTextLayout(p: Primitives, plaintext: string, password: string, salt: seq<Byte>, iv: seq<Byte>)
    requires |salt| == ScriptSaltLength && |iv| == ScriptIvLength
    ensures var key := p.pbkdf2(p.utf8Encode(password), salt, ScriptIterations, ScriptKeyLength);
      var (encrypted, authTag) := p.gcmEncrypt(key, iv, p.utf8Encode(plaintext));
      var data := Decode(EncryptText(p, plaintext, password, salt, iv));
      data.Some? && |data.value| == 28 + |encrypted| + |authTag| &&
      data.value[..16] == salt && data.value[16..28] == iv &&
      data.value[28..28 + |encrypted|] == encrypted && data.value[28 + |encrypted|..] == authTag
  {
    var key := p.pbkdf2(p.utf8Encode(password), salt, ScriptIterations, ScriptKeyLength);
    var (encrypted, authTag) := p.gcmEncrypt(key, iv, p.utf8Encode(plaintext));
    var bytes := salt + iv + encrypted + authTag;
    assert EncryptText(p, plaintext, password, salt, iv) == Encode(bytes);
    DecodeEncode(bytes);
    FourParts(salt, iv, encrypted, authTag);
  }

  /** The four parts of `a + b + c + d` are found back by slicing at their lengths. */
  lemma FourParts(a: seq<Byte>, b: seq<Byte>, c: seq<Byte>, d: seq<Byte>)
    requires |a| == 16 && |b| == 12
    ensures var x := a + b + c + d;
      |x| == 28 + |c| + |d| && x[..16] == a && x[16..28] == b &&
      x[28..28 + |c|] == c && x[28 + |c|..] == d
  {
  }

  /** Taking WebCrypto's ciphertext to be the encrypted bytes followed by
      the tag, the script writes exactly the file `encrypt` would write
      for the same salt and iv. */
  lemma EncryptTextIsEncrypt(p: Primitives, plaintext: string, password: string, salt: seq<Byte>, iv: seq<Byte>)
    ensures EncryptText(p, plaintext, password, salt, iv) == Encrypted(p, plaintext, password, salt, iv)
  {
    var key := DeriveKey(p, password, salt);
    var (encrypted, authTag) := p.gcmEncrypt(key, iv, p.utf8Encode(plaintext));
    assert salt + iv + encrypted + authTag == salt + iv + (encrypted + authTag);
  }

  /** What the script writes, the page's `decrypt` reads back with the
      same password, less a leading byte-order mark. */
  lemma ScriptOutputDecrypts(p: Primitives, plaintext: string, password: string, salt: seq<Byte>, iv: seq<Byte>)
    requires Sound(p)
    requires |salt| == ScriptSaltLength && |iv| == ScriptIvLength
    ensures Decrypted(p, EncryptText(p, plaintext, password, salt, iv), password) == Ok(StripBom(plaintext))
    ensures NoBom(plaintext) ==> Decrypted(p, EncryptText(p, plaintext, password, salt, iv), password) == Ok(plaintext)
  {
    EncryptTextIsEncrypt(p, plaintext, password, salt, iv);
    DecryptEncrypt(p, plaintext, password, salt, iv);
  }

  // ---------------------------------------------------------------------
  // One file (lines 40-64)
  // ---------------------------------------------------------------------

  /** Why a file is skipped. */
  datatype Skip = TooFewLines | EmptyPassword | BadPassword | EmptyText

  /** The decision for one file. */
  datatype Decision = Skipped(reason: Skip) | Accepted(letterId: string, password: string, text: string)

  /** `path.basename(file, '.txt')` for a name from the directory listing
      (no separator in it) that ends in `.txt`. */
  function LetterId(file: string): (id: string)
    requires EndsWith(file, ".txt")
    ensures id + ".txt" == file
  {
    file[..|file| - 4]
  }

  /** The checks of the loop body, in the order the script makes them. */
  function Classify(file: string, content: string): Decision
    requires EndsWith(file, ".txt")
  {
    var lines := Split(content, '\n');
    if |lines| < 2 then Skipped(TooFewLines)
    else
      var password := Trim(lines[0]);
      var letterText := Trim(Join(lines[1..], '\n'));
      if password == "" then Skipped(EmptyPassword)
      else if !PasswordPattern(password) then Skipped(BadPassword)
      else if letterText == "" then Skipped(EmptyText)
      else Accepted(LetterId(file), password, letterText)
  }

  /** With a line feed at `k` and none before it, the split's first line is
      the text before `k` and the rest, joined, is the text after it. */
  lemma FirstLine(content: string, k: nat)
    requires k < |content| && content[k] == '\n' && '\n' !in content[..k]
    ensures |Split(content, '\n')| >= 2
    ensures Split(content, '\n')[0] == content[..k]
    ensures Join(Split(content, '\n')[1..], '\n') == content[k + 1..]
  {
    assert content == content[..k] + ['\n'] + content[k + 1..];
    SplitPrefix(content[..k], '\n', content[k + 1..]);
    JoinSplit(content[k + 1..], '\n');
  }

  /** Every decision in terms of the text before the first line feed and
      the text after it: no line feed skips the file; otherwise the
      password is the trimmed first line and the letter the trimmed rest,
      and the first failing check names the reason. An accepted file has a
      valid password and a non-empty letter, and the letter id is the name
      without `.txt`. */
  lemma ClassifyDecides(file: string, content: string)
    requires EndsWith(file, ".txt")
    ensures '\n' !in content ==> Classify(file, content) == Skipped(TooFewLines)
    ensures '\n' in content ==> exists k ::
      0 <= k < |content| && content[k] == '\n' && '\n' !in content[..k] &&
      var password, letterText := Trim(content[..k]), Trim(content[k + 1..]);
      Classify(file, content) ==
        if password == "" then Skipped(EmptyPassword)
        else if !ValidatePassword(password) then Skipped(BadPassword)
        else if letterText == "" then Skipped(EmptyText)
        else Accepted(LetterId(file), password, letterText)
  {
    SplitCountsSeparator(content, '\n');
    if '\n' in content {
      var i :| 0 <= i < |content| && content[i] == '\n';
      var k := FirstIndex(content, '\n', i);
      FirstLine(content, k);
      PasswordForms(Trim(content[..k]));
    }
  }

  /** An accepted file has a password `validatePassword` accepts, with no
      whitespace around it, and a non-empty letter with none either; the
      output name is the input name. */
  lemma AcceptedIsValid(file: string, content: string)
    requires EndsWith(file, ".txt")
    requires Classify(file, content).Accepted?
    ensures var d := Classify(file, content);
      ValidatePassword(d.password) && Trim(d.password) == d.password &&
      d.text != "" && Trim(d.text) == d.text && d.letterId + ".txt" == file
  {
    var lines := Split(content, '\n');
    PasswordForms(Trim(lines[0]));
    TrimIdempotent(lines[0]);
    TrimIdempotent(Join(lines[1..], '\n'));
  }

  /** The script never checks the letter id against `validateLetterId`: a
      file named `My_Letter.txt` is encrypted although the id is one the
      validator refuses. */
  lemma IdNotValidated()
    ensures Classify("My_Letter.txt", "abc\nhi").Accepted?
    ensures Classify("My_Letter.txt", "abc\nhi").letterId == "My_Letter"
    ensures !ValidateLetterId("My_Letter")
  {
    assert "abc\nhi" == "abc" + "\n" + "hi";
    assert PasswordPattern("abc") by {
      assert "abc"[1..] == "bc" && "bc"[1..] == "c";
    }
    TrimOfTrimmed("abc");
    TrimOfTrimmed("hi");
    TwoLineFile("My_Letter.txt", "abc", "hi");
    assert LetterId("My_Letter.txt") == "My_Letter";
    assert !IsIdChar("My_Letter"[0]);
  }

  /** A file of a valid password line and one letter line is accepted
      with both. */
  lemma TwoLineFile(file: string, password: string, text: string)
    requires EndsWith(file, ".txt")
    requires '\n' !in password && '\n' !in text
    requires Trim(password) == password && PasswordPattern(password)
    requires Trim(text) == text && text != ""
    ensures Classify(file, password + "\n" + text) == Accepted(LetterId(file), password, text)
  {
    var content := password + "\n" + text;
    var k := |password|;
    assert content[..k] == password && content[k + 1..] == text;
    FirstLine(content, k);
  }


  // ---------------------------------------------------------------------
  // The batch (lines 28-71)
  // ---------------------------------------------------------------------

  /** A directory entry: a file name and its contents. */
  datatype Entry = Entry(name: string, content: string)

  /** The two random values drawn for one file. */
  datatype Nonce = Nonce(salt: seq<Byte>, iv: seq<Byte>)

  /** A file written by the script. */
  datatype Write = Write(path: string, contents: string)

  /** `path.join(OUT_DIR, name)`, with the output directory a parameter. */
  function OutPath(outDir: string, name: string): string {
    outDir + "/" + name
  }

  /** `readdirSync(RAW_DIR).filter((f) => f.endsWith('.txt'))`. */
  function TxtFiles(entries: seq<Entry>): (files: seq<Entry>)
    ensures forall k :: 0 <= k < |files| ==> EndsWith(files[k].name, ".txt") && files[k] in entries
    ensures forall k :: 0 <= k < |entries| && EndsWith(entries[k].name, ".txt") ==> entries[k] in files
    decreases |entries|
  {
    if |entries| == 0 then []
    else
      var rest := TxtFiles(entries[1..]);
      assert forall k :: 1 <= k < |entries| ==> entries[k] == entries[1..][k - 1];
      if EndsWith(entries[0].name, ".txt") then [entries[0]] + rest else rest
  }

  predicate AllTxt(files: seq<Entry>) {
    forall k :: 0 <= k < |files| ==> EndsWith(files[k].name, ".txt")
  }

  predicate NoncesFit(nonces: seq<Nonce>) {
    forall k :: 0 <= k < |nonces| ==> |nonces[k].salt| == SaltLength && |nonces[k].iv| == IvLength
  }

  /** The write for one file, if it is accepted. */
  function WriteFor(p: Primitives, outDir: string, file: Entry, nonce: Nonce): seq<Write>
    requires EndsWith(file.name, ".txt")
  {
    match Classify(file.name, file.content)
    case Skipped(_) => []
    case Accepted(id, password, text) =>
      [Write(OutPath(outDir, id + ".txt"), EncryptText(p, text, password, nonce.salt, nonce.iv))]
  }

  /** The writes of each file, one list per file. */
  function WriteChunks(p: Primitives, outDir: string, files: seq<Entry>, nonces: seq<Nonce>): (c: seq<seq<Write>>)
    requires AllTxt(files) && |nonces| == |files|
    ensures |c| == |files|
    ensures forall k :: 0 <= k < |c| ==> c[k] == WriteFor(p, outDir, files[k], nonces[k])
  {
    seq(|files|, k requires 0 <= k < |files| => WriteFor(p, outDir, files[k], nonces[k]))
  }

  /** The writes for a list of files, in order. */
  function Writes(p: Primitives, outDir: string, files: seq<Entry>, nonces: seq<Nonce>): seq<Write>
    requires AllTxt(files) && |nonces| == |files|
  {
    Concat(WriteChunks(p, outDir, files, nonces))
  }

  /** The skip record for one file, if it is skipped. */
  function SkipFor(file: Entry): seq<(string, Skip)>
    requires EndsWith(file.name, ".txt")
  {
    match Classify(file.name, file.content)
    case Skipped(why) => [(file.name, why)]
    case Accepted(_, _, _) => []
  }

  /** The skip records of each file, one list per file. */
  function SkipChunks(files: seq<Entry>): (c: seq<seq<(string, Skip)>>)
    requires AllTxt(files)
    ensures |c| == |files|
    ensures forall k :: 0 <= k < |c| ==> c[k] == SkipFor(files[k])
  {
    seq(|files|, k requires 0 <= k < |files| => SkipFor(files[k]))
  }

  /** The skipped files and their reasons, in order. */
  function Skips(files: seq<Entry>): seq<(string, Skip)>
    requires AllTxt(files)
  {
    Concat(SkipChunks(files))
  }

  /** The lists one after the other. */
  function Concat<T>(chunks: seq<seq<T>>): seq<T>
    decreases |chunks|
  {
    if |chunks| == 0 then [] else Concat(chunks[..|chunks| - 1]) + chunks[|chunks| - 1]
  }

  /** One more file adds its own list at the end. */
  lemma ConcatStep<T>(chunks: seq<seq<T>>, i: nat)
    requires i < |chunks|
    ensures Concat(chunks[..i + 1]) == Concat(chunks[..i]) + chunks[i]
  {
    assert chunks[..i + 1][..i] == chunks[..i];
  }

  /** When each file gives one element to exactly one of two lists, the
      two concatenations together have one element per file. */
  lemma {:induction false} ConcatLengths<T, U>(a: seq<seq<T>>, b: seq<seq<U>>)
    requires |a| == |b|
    requires forall k :: 0 <= k < |a| ==> |a[k]| + |b[k]| == 1
    ensures |Concat(a)| + |Concat(b)| == |a|
    decreases |a|
  {
    if |a| > 0 {
      var n := |a| - 1;
      assert forall k :: 0 <= k < n ==> a[..n][k] == a[k] && b[..n][k] == b[k];
      ConcatLengths(a[..n], b[..n]);
    }
  }

  /** Every element of the concatenation comes from one of the lists. */
  lemma {:induction false} ConcatMember<T>(chunks: seq<seq<T>>, x: T) returns (k: nat)
    requires x in Concat(chunks)
    ensures k < |chunks| && x in chunks[k]
    decreases |chunks|
  {
    var n := |chunks| - 1;
    if x in Concat(chunks[..n]) {
      k := ConcatMember(chunks[..n], x);
      assert chunks[..n][k] == chunks[k];
    } else {
      k := n;
    }
  }

  /** Every element of every list is in the concatenation. */
  lemma {:induction false} ChunkInConcat<T>(chunks: seq<seq<T>>, k: nat, x: T)
    requires k < |chunks| && x in chunks[k]
    ensures x in Concat(chunks)
    decreases |chunks|
  {
    var n := |chunks| - 1;
    if k < n {
      assert chunks[..n][k] == chunks[k];
      ChunkInConcat(chunks[..n], k, x);
    }
  }

  /** The checks of the loop body (lines 40-64), in the script's order;
      each early `return` is one of the script's `continue`s. */
  method CheckFile(file: Entry) returns (d: Decision)
    requires EndsWith(file.name, ".txt")
    ensures d == Classify(file.name, file.content)
  {
    var lines := Split(file.content, '\n');
    if |lines| < 2 {
      return Skipped(TooFewLines);
    }
    var password := Trim(lines[0]);
    var letterText := Trim(Join(lines[1..], '\n'));
    var letterId := LetterId(file.name);
    if password == "" {
      return Skipped(EmptyPassword);
    }
    if !PasswordPattern(password) {
      return Skipped(BadPassword);
    }
    if letterText == "" {
      return Skipped(EmptyText);
    }
    d := Accepted(letterId, password, letterText);
  }

  /** The loop of the script over the `.txt` files: a skipped file is
      recorded and the loop goes on; an accepted file is encrypted and
      written under its own name. */
  method EncryptLetters(p: Primitives, outDir: string, entries: seq<Entry>, nonces: seq<Nonce>)
    returns (writes: seq<Write>, skipped: seq<(string, Skip)>)
    requires |nonces| == |TxtFiles(entries)| && NoncesFit(nonces)
    ensures writes == Writes(p, outDir, TxtFiles(entries), nonces)
    ensures skipped == Skips(TxtFiles(entries))
  {
    var files := TxtFiles(entries);
    ghost var wc := WriteChunks(p, outDir, files, nonces);
    ghost var sc := SkipChunks(files);
    writes, skipped := [], [];
    for i := 0 to |files|
      invariant writes == Concat(wc[..i])
      invariant skipped == Concat(sc[..i])
    {
      ConcatStep(wc, i);
      ConcatStep(sc, i);
      var file := files[i];
      var decision := CheckFile(file);
      match decision
      case Skipped(why) =>
        skipped := skipped + [(file.name, why)];
      case Accepted(letterId, password, letterText) =>
        var encrypted := EncryptText(p, letterText, password, nonces[i].salt, nonces[i].iv);
        writes := writes + [Write(OutPath(outDir, letterId + ".txt"), encrypted)];
    }
    assert wc[..|files|] == wc && sc[..|files|] == sc;
  }

  /** Every file is either written or skipped, never both, so a skip does
      not stop the batch: writes and skips together account for all the
      files. */
  lemma EveryFileAccounted(p: Primitives, outDir: string, files: seq<Entry>, nonces: seq<Nonce>)
    requires AllTxt(files) && |nonces| == |files|
    ensures |Writes(p, outDir, files, nonces)| + |Skips(files)| == |files|
  {
    var wc := WriteChunks(p, outDir, files, nonces);
    var sc := SkipChunks(files);
    forall k | 0 <= k < |files|
      ensures |wc[k]| + |sc[k]| == 1
    {
      OneFileAccounted(p, outDir, files[k], nonces[k]);
    }
    ConcatLengths(wc, sc);
  }

  /** A file is either written once or skipped once. */
  lemma OneFileAccounted(p: Primitives, outDir: string, file: Entry, nonce: Nonce)
    requires EndsWith(file.name, ".txt")
    ensures |WriteFor(p, outDir, file, nonce)| + |SkipFor(file)| == 1
  {
  }

  /** Each write is the encryption of an accepted file, under the file's
      own name in the output directory, and the page decrypts it to the
      file's letter with the file's password. */
  lemma WritesComeFromAccepted(p: Primitives, outDir: string, files: seq<Entry>, nonces: seq<Nonce>)
    requires Sound(p)
    requires AllTxt(files) && |nonces| == |files| && NoncesFit(nonces)
    ensures forall w :: w in Writes(p, outDir, files, nonces) ==> exists k ::
      0 <= k < |files| && Classify(files[k].name, files[k].content).Accepted? &&
      w.path == OutPath(outDir, files[k].name) &&
      Decrypted(p, w.contents, Classify(files[k].name, files[k].content).password) ==
        Ok(Classify(files[k].name, files[k].content).text)
  {
    forall w | w in Writes(p, outDir, files, nonces)
      ensures exists k ::
        0 <= k < |files| && Classify(files[k].name, files[k].content).Accepted? &&
        w.path == OutPath(outDir, files[k].name) &&
        Decrypted(p, w.contents, Classify(files[k].name, files[k].content).password) ==
          Ok(Classify(files[k].name, files[k].content).text)
    {
      WriteComesFromAccepted(p, outDir, files, nonces, w);
    }
  }

  /** One write at a time: it comes from some file, and that file's
      write says the rest. */
  lemma WriteComesFromAccepted(p: Primitives, outDir: string, files: seq<Entry>,
                               nonces: seq<Nonce>, w: Write)
    requires Sound(p)
    requires AllTxt(files) && |nonces| == |files| && NoncesFit(nonces)
    requires w in Writes(p, outDir, files, nonces)
    ensures exists k ::
      0 <= k < |files| && Classify(files[k].name, files[k].content).Accepted? &&
      w.path == OutPath(outDir, files[k].name) &&
      Decrypted(p, w.contents, Classify(files[k].name, files[k].content).password) ==
        Ok(Classify(files[k].name, files[k].content).text)
  {
    var k := WriteOfSomeFile(p, outDir, files, nonces, w);
    WriteForDecrypts(p, outDir, files[k], nonces[k], w);
  }

  /** Each write is the write of one of the files. */
  lemma WriteOfSomeFile(p: Primitives, outDir: string, files: seq<Entry>,
                        nonces: seq<Nonce>, w: Write) returns (k: nat)
    requires AllTxt(files) && |nonces| == |files|
    requires w in Writes(p, outDir, files, nonces)
    ensures k < |files| && w in WriteFor(p, outDir, files[k], nonces[k])
  {
    k := ConcatMember(WriteChunks(p, outDir, files, nonces), w);
  }

  /** The write of one file comes from an accepted file, carries its name,
      and decrypts to its letter with its password. */
  lemma WriteForDecrypts(p: Primitives, outDir: string, file: Entry, nonce: Nonce, w: Write)
    requires Sound(p)
    requires EndsWith(file.name, ".txt") && |nonce.salt| == SaltLength && |nonce.iv| == IvLength
    requires w in WriteFor(p, outDir, file, nonce)
    ensures Classify(file.name, file.content).Accepted?
    ensures w.path == OutPath(outDir, file.name)
    ensures Decrypted(p, w.contents, Classify(file.name, file.content).password) ==
      Ok(Classify(file.name, file.content).text)
  {
    var d := Classify(file.name, file.content);
    TrimmedEnds(Join(Split(file.content, '\n')[1..], '\n'));
    assert IsWs(Bom);
    ScriptOutputDecrypts(p, d.text, d.password, nonce.salt, nonce.iv);
  }

  /** Each accepted file is written. */
  lemma AcceptedAreWritten(p: Primitives, outDir: string, files: seq<Entry>, nonces: seq<Nonce>)
    requires AllTxt(files) && |nonces| == |files|
    ensures forall k :: 0 <= k < |files| && Classify(files[k].name, files[k].content).Accepted? ==>
      Write(OutPath(outDir, files[k].name),
            EncryptText(p, Classify(files[k].name, files[k].content).text,
                        Classify(files[k].name, files[k].content).password,
                        nonces[k].salt, nonces[k].iv)) in Writes(p, outDir, files, nonces)
  {
    forall k | 0 <= k < |files| && Classify(files[k].name, files[k].content).Accepted?
      ensures Write(OutPath(outDir, files[k].name),
                    EncryptText(p, Classify(files[k].name, files[k].content).text,
                                Classify(files[k].name, files[k].content).password,
                                nonces[k].salt, nonces[k].iv)) in Writes(p, outDir, files, nonces)
    {
      AcceptedFileWritten(p, outDir, files[k], nonces[k]);
      var d := Classify(files[k].name, files[k].content);
      WriteForIncluded(p, outDir, files, nonces, k,
                       Write(OutPath(outDir, files[k].name), EncryptText(p, d.text, d.password, nonces[k].salt, nonces[k].iv)));
    }
  }

  /** The write of each file is among the writes of the batch. */
  lemma WriteForIncluded(p: Primitives, outDir: string, files: seq<Entry>,
                         nonces: seq<Nonce>, k: nat, w: Write)
    requires AllTxt(files) && |nonces| == |files| && k < |files|
    requires w in WriteFor(p, outDir, files[k], nonces[k])
    ensures w in Writes(p, outDir, files, nonces)
  {
    ChunkInConcat(WriteChunks(p, outDir, files, nonces), k, w);
  }

  /** An accepted file's write is its encryption under its own name. */
  lemma AcceptedFileWritten(p: Primitives, outDir: string, file: Entry, nonce: Nonce)
    requires EndsWith(file.name, ".txt")
    ensures var d := Classify(file.name, file.content);
      d.Accepted? ==>
        WriteFor(p, outDir, file, nonce) ==
          [Write(OutPath(outDir, file.name), EncryptText(p, d.text, d.password, nonce.salt, nonce.iv))]
  {
  }

}
