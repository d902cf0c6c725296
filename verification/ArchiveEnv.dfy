/** The `.env` text of an export archive and the secret check of import (src/routes/admin.rs). */
module ArchiveEnv {
  import opened Wrappers
  import opened Hex
  import opened Crypto

  const ENC_PREFIX := "DATABASEENCRYPTSECRET="
  const SW_PREFIX := "SOFTWARESECRET="

  function PrintEnv(c: Config): string {
    ENC_PREFIX + Encode(c.secret) + "\n" + SW_PREFIX + Encode(c.software) + "\n"
  }

  // ----- lines of a text -----

  function IndexOf(text: string, ch: char): (k: nat)
    ensures k <= |text|
    ensures k < |text| ==> text[k] == ch
    ensures forall i | 0 <= i < k :: text[i] != ch
  {
    if text == "" || text[0] == ch then 0 else 1 + IndexOf(text[1..], ch)
  }

  function DropCr(line: string): string {
    if line != "" && line[|line| - 1] == '\r' then line[..|line| - 1] else line
  }

  /** `str::lines`: split at "\n" or "\r\n"; a final line ending adds no empty line. */
  function Lines(text: string): seq<string> {
    if text == "" then []
    else
      var k := IndexOf(text, '\n');
      if k == |text| then [text] else [DropCr(text[..k])] + Lines(text[k + 1..])
  }

  predicate OneLine(line: string) {
    '\n' !in line
  }

  predicate CleanLine(line: string) {
    '\n' !in line && '\r' !in line
  }

  function Unlines(lines: seq<string>): string {
    if lines == [] then "" else lines[0] + "\n" + Unlines(lines[1..])
  }

  function Stripped(lines: seq<string>): seq<string> {
    seq(|lines|, i requires 0 <= i < |lines| => DropCr(lines[i]))
  }

  lemma LineEndsAt(line: string, rest: string)
    requires OneLine(line)
    ensures IndexOf(line + "\n" + rest, '\n') == |line|
  {
    var text := line + "\n" + rest;
    assert text[|line|] == '\n';
    assert forall i | 0 <= i < |line| :: text[i] == line[i] && line[i] in line;
  }

  lemma NoLineEnd(line: string)
    requires OneLine(line)
    ensures IndexOf(line, '\n') == |line|
  {
    assert forall i | 0 <= i < |line| :: line[i] in line;
  }

  lemma FirstLine(line: string, rest: string)
    requires OneLine(line)
    ensures Lines(line + "\n" + rest) == [DropCr(line)] + Lines(rest)
  {
    var text := line + "\n" + rest;
    LineEndsAt(line, rest);
    assert text[..|line|] == line && text[|line| + 1..] == rest;
  }

  lemma StrippedFirst(lines: seq<string>)
    requires lines != []
    ensures Stripped(lines) == [DropCr(lines[0])] + Stripped(lines[1..])
  {
  }

  /** Joined lines come back without the carriage return at their ends. */
  lemma {:induction false} LinesAreStripped(lines: seq<string>)
    requires forall i | 0 <= i < |lines| :: OneLine(lines[i])
    ensures Lines(Unlines(lines)) == Stripped(lines)
  {
    if lines != [] {
      FirstLine(lines[0], Unlines(lines[1..]));
      LinesAreStripped(lines[1..]);
      StrippedFirst(lines);
    }
  }

  lemma JoinedFirst(lines: seq<string>, last: string)
    requires lines != []
    ensures Unlines(lines) + last == lines[0] + "\n" + (Unlines(lines[1..]) + last)
  {
  }

  /** A last line without a line ending comes back whole, carriage return and all. */
  lemma {:induction false} OpenLastLine(lines: seq<string>, last: string)
    requires forall i | 0 <= i < |lines| :: OneLine(lines[i])
    requires OneLine(last) && last != ""
    ensures Lines(Unlines(lines) + last) == Stripped(lines) + [last]
  {
    if lines == [] {
      OneOpenLine(last);
      assert Unlines(lines) + last == last;
    } else {
      JoinedFirst(lines, last);
      FirstLine(lines[0], Unlines(lines[1..]) + last);
      OpenLastLine(lines[1..], last);
      StrippedFirst(lines);
      assert Stripped(lines) + [last] == [DropCr(lines[0])] + (Stripped(lines[1..]) + [last]);
    }
  }

  lemma OneOpenLine(line: string)
    requires OneLine(line) && line != ""
    ensures Lines(line) == [line]
  {
    NoLineEnd(line);
  }

  lemma LinesOfUnlines(lines: seq<string>)
    requires forall i | 0 <= i < |lines| :: CleanLine(lines[i])
    ensures Lines(Unlines(lines)) == lines
  {
    LinesAreStripped(lines);
    forall i | 0 <= i < |lines| ensures DropCr(lines[i]) == lines[i] {
      assert lines[i] != "" ==> lines[i][|lines[i]| - 1] in lines[i];
    }
    assert Stripped(lines) == lines;
  }

  // ----- reading the two secrets -----

  predicate HasPrefix(line: string, prefix: string) {
    prefix <= line
  }

  /** The value on the last line that has the prefix. */
  function LastValue(lines: seq<string>, prefix: string): Option<string> {
    if lines == [] then None
    else
      var last := lines[|lines| - 1];
      if HasPrefix(last, prefix) then Some(last[|prefix|..]) else LastValue(lines[..|lines| - 1], prefix)
  }

  /** The line loop of the import handler. */
  method ReadSecrets(lines: seq<string>) returns (enc: Option<string>, sw: Option<string>)
    ensures enc == LastValue(lines, ENC_PREFIX) && sw == LastValue(lines, SW_PREFIX)
  {
    enc, sw := None, None;
    for i := 0 to |lines|
      invariant enc == LastValue(lines[..i], ENC_PREFIX) && sw == LastValue(lines[..i], SW_PREFIX)
    {
      assert lines[..i + 1][..i] == lines[..i];
      PrefixesDiffer(lines[i]);
      if HasPrefix(lines[i], ENC_PREFIX) {
        enc := Some(lines[i][|ENC_PREFIX|..]);
      } else if HasPrefix(lines[i], SW_PREFIX) {
        sw := Some(lines[i][|SW_PREFIX|..]);
      }
    }
    assert lines[..|lines|] == lines;
  }

  lemma PrefixesDiffer(line: string)
    ensures !(HasPrefix(line, ENC_PREFIX) && HasPrefix(line, SW_PREFIX))
  {
    if HasPrefix(line, ENC_PREFIX) {
      assert line[0] == ENC_PREFIX[0];
    }
  }

  /** Line i carries the value and no later line has the prefix. */
  ghost predicate LastAt(lines: seq<string>, prefix: string, value: string, i: nat) {
    i < |lines| && lines[i] == prefix + value && forall j | i < j < |lines| :: !HasPrefix(lines[j], prefix)
  }

  /** Only the last line with the prefix counts: extra lines, earlier duplicates and the order of
      the two secrets change nothing. */
  lemma {:induction false} LastValueMeaning(lines: seq<string>, prefix: string, value: string)
    ensures LastValue(lines, prefix) == Some(value) <==> exists i: nat :: LastAt(lines, prefix, value, i)
  {
    if lines != [] {
      var n := |lines| - 1;
      var front, last := lines[..n], lines[n];
      LastValueMeaning(front, prefix, value);
      assert HasPrefix(prefix + value, prefix) && (prefix + value)[|prefix|..] == value;
      if HasPrefix(last, prefix) {
        assert last == prefix + last[|prefix|..];
        assert last[|prefix|..] == value ==> LastAt(lines, prefix, value, n);
        assert forall i: nat | LastAt(lines, prefix, value, i) :: i == n;
      } else {
        forall i: nat | i < n ensures LastAt(front, prefix, value, i) <==> LastAt(lines, prefix, value, i) {
        }
        assert !LastAt(lines, prefix, value, n);
        assert forall i: nat | LastAt(lines, prefix, value, i) :: i < n;
        assert forall i: nat | LastAt(front, prefix, value, i) :: i < n;
      }
    }
  }

  // ----- the import check -----

  function CheckSecrets(c: Config, env: string): Result<(), AppError> {
    var lines := Lines(env);
    var enc := LastValue(lines, ENC_PREFIX);
    var sw := LastValue(lines, SW_PREFIX);
    if enc.None? || sw.None? then Failure(Validation)
    else if enc.value != Encode(c.secret) || sw.value != Encode(c.software) then Failure(Unauthorized)
    else Success(())
  }

  /** The text names these two secrets. */
  predicate Names(env: string, secret: Bytes, software: Bytes) {
    && LastValue(Lines(env), ENC_PREFIX) == Some(Encode(secret))
    && LastValue(Lines(env), SW_PREFIX) == Some(Encode(software))
  }

  lemma AcceptedNamesSecrets(c: Config, env: string)
    ensures CheckSecrets(c, env).Success? <==> Names(env, c.secret, c.software)
  {
  }

  lemma HexLineClean(prefix: string, data: Bytes)
    requires CleanLine(prefix)
    ensures CleanLine(prefix + Encode(data))
  {
    EncodeShape(data);
    assert DigitValue('\n').None? && DigitValue('\r').None?;
    forall i | 0 <= i < |prefix + Encode(data)|
      ensures (prefix + Encode(data))[i] != '\n' && (prefix + Encode(data))[i] != '\r'
    {
      if i >= |prefix| {
        assert (prefix + Encode(data))[i] == Encode(data)[i - |prefix|];
      } else {
        assert (prefix + Encode(data))[i] == prefix[i];
      }
    }
  }

  lemma UnlinesTwo(a: string, b: string)
    ensures Unlines([a, b]) == a + "\n" + b + "\n"
  {
    assert [a, b][1..] == [b] && [b][1..] == [];
    assert Unlines([]) == "";
    assert Unlines([b]) == b + "\n";
  }

  lemma PrintedLines(c: Config)
    ensures Lines(PrintEnv(c)) == [ENC_PREFIX + Encode(c.secret), SW_PREFIX + Encode(c.software)]
  {
    var enc, sw := ENC_PREFIX + Encode(c.secret), SW_PREFIX + Encode(c.software);
    HexLineClean(ENC_PREFIX, c.secret);
    HexLineClean(SW_PREFIX, c.software);
    PrintedText(c, enc, sw);
    LinesOfUnlines([enc, sw]);
  }

  lemma PrintedText(c: Config, enc: string, sw: string)
    requires enc == ENC_PREFIX + Encode(c.secret) && sw == SW_PREFIX + Encode(c.software)
    ensures PrintEnv(c) == Unlines([enc, sw])
  {
    UnlinesTwo(enc, sw);
  }

  /** A value on the only line with the prefix is the value read. */
  lemma OnlyLine(lines: seq<string>, prefix: string, value: string, i: nat)
    requires i < |lines| && lines[i] == prefix + value
    requires forall k | 0 <= k < |lines| && k != i :: !HasPrefix(lines[k], prefix)
    ensures LastValue(lines, prefix) == Some(value)
  {
    LastValueMeaning(lines, prefix, value);
    assert LastAt(lines, prefix, value, i);
  }

  /** Reading back what export prints gives the same two secrets, for all secrets. */
  lemma PrintedNamesItsSecrets(c: Config)
    ensures Names(PrintEnv(c), c.secret, c.software)
  {
    var enc, sw := ENC_PREFIX + Encode(c.secret), SW_PREFIX + Encode(c.software);
    PrintedLines(c);
    PrefixesDiffer(enc);
    PrefixesDiffer(sw);
    assert HasPrefix(enc, ENC_PREFIX) && HasPrefix(sw, SW_PREFIX);
    OnlyLine([enc, sw], ENC_PREFIX, Encode(c.secret), 0);
    OnlyLine([enc, sw], SW_PREFIX, Encode(c.software), 1);
  }

  lemma NamesAreUnique(env: string, secret: Bytes, software: Bytes, secret': Bytes, software': Bytes)
    requires Names(env, secret, software) && Names(env, secret', software')
    ensures secret == secret' && software == software'
  {
    Injective(secret, secret');
    Injective(software, software');
  }

  /** A server accepts the archive of another exactly when both secrets are its own. */
  lemma AcceptsExactlyOwnSecrets(exporter: Config, importer: Config)
    ensures CheckSecrets(importer, PrintEnv(exporter)).Success? <==>
            exporter.secret == importer.secret && exporter.software == importer.software
    ensures !CheckSecrets(importer, PrintEnv(exporter)).Success? ==>
            CheckSecrets(importer, PrintEnv(exporter)) == Failure(Unauthorized)
  {
    var env := PrintEnv(exporter);
    PrintedNamesItsSecrets(exporter);
    if CheckSecrets(importer, env).Success? {
      NamesAreUnique(env, exporter.secret, exporter.software, importer.secret, importer.software);
    }
  }

  /** The last line with the prefix carries the value. */
  ghost predicate LastCarries(lines: seq<string>, prefix: string, value: string) {
    exists i: nat :: LastAt(lines, prefix, value, i)
  }

  lemma LastCarriesValue(lines: seq<string>, prefix: string, value: string)
    ensures LastValue(lines, prefix) == Some(value) <==> LastCarries(lines, prefix, value)
  {
    LastValueMeaning(lines, prefix, value);
  }

  /** Any text is accepted exactly when, for each of the two secrets, the last line that has its prefix
      carries the server's own. */
  lemma AcceptsExactlyLastLines(c: Config, env: string)
    ensures CheckSecrets(c, env).Success? <==>
            && LastCarries(Lines(env), "DATABASEENCRYPTSECRET=", Encode(c.secret))
            && LastCarries(Lines(env), "SOFTWARESECRET=", Encode(c.software))
    ensures LastValue(Lines(env), ENC_PREFIX).Some? && LastValue(Lines(env), SW_PREFIX).Some? ==>
              CheckSecrets(c, env).Success? || CheckSecrets(c, env) == Failure(Unauthorized)
    ensures LastValue(Lines(env), ENC_PREFIX).None? || LastValue(Lines(env), SW_PREFIX).None? ==>
              CheckSecrets(c, env) == Failure(Validation)
  {
    AcceptedNamesSecrets(c, env);
    LastCarriesValue(Lines(env), ENC_PREFIX, Encode(c.secret));
    LastCarriesValue(Lines(env), SW_PREFIX, Encode(c.software));
  }

  /** Lines that carry neither prefix may be put anywhere, whatever they hold, the two secret lines come
      in any order, and any line may end in a carriage return. */
  lemma ExtraLinesDoNotMatter(c: Config, lines: seq<string>, i: nat, j: nat)
    requires i < |lines| && j < |lines| && i != j
    requires forall k | 0 <= k < |lines| :: OneLine(lines[k])
    requires DropCr(lines[i]) == ENC_PREFIX + Encode(c.secret) && DropCr(lines[j]) == SW_PREFIX + Encode(c.software)
    requires forall k | 0 <= k < |lines| && k != i && k != j ::
               !HasPrefix(lines[k], ENC_PREFIX) && !HasPrefix(lines[k], SW_PREFIX)
    ensures CheckSecrets(c, Unlines(lines)) == Success(())
  {
    assert Names(Unlines(lines), c.secret, c.software) by {
      SecretsAmongLines(lines, Encode(c.secret), Encode(c.software), i, j);
    }
    NamedIsAccepted(c, Unlines(lines));
  }

  lemma NamedIsAccepted(c: Config, env: string)
    requires Names(env, c.secret, c.software)
    ensures CheckSecrets(c, env) == Success(())
  {
  }

  lemma SecretsAmongLines(lines: seq<string>, enc: string, sw: string, i: nat, j: nat)
    requires i < |lines| && j < |lines| && i != j
    requires forall k | 0 <= k < |lines| :: OneLine(lines[k])
    requires DropCr(lines[i]) == ENC_PREFIX + enc && DropCr(lines[j]) == SW_PREFIX + sw
    requires forall k | 0 <= k < |lines| && k != i && k != j ::
               !HasPrefix(lines[k], ENC_PREFIX) && !HasPrefix(lines[k], SW_PREFIX)
    ensures LastValue(Lines(Unlines(lines)), ENC_PREFIX) == Some(enc)
    ensures LastValue(Lines(Unlines(lines)), SW_PREFIX) == Some(sw)
  {
    LinesAreStripped(lines);
    StrippedOthers(lines, i, j);
    BothSecretsFound(Stripped(lines), enc, sw, i, j);
  }

  lemma StrippedOthers(lines: seq<string>, i: nat, j: nat)
    requires forall k | 0 <= k < |lines| && k != i && k != j ::
               !HasPrefix(lines[k], ENC_PREFIX) && !HasPrefix(lines[k], SW_PREFIX)
    ensures forall k | 0 <= k < |lines| && k != i && k != j ::
              !HasPrefix(Stripped(lines)[k], ENC_PREFIX) && !HasPrefix(Stripped(lines)[k], SW_PREFIX)
  {
    forall k | 0 <= k < |lines| && k != i && k != j
      ensures !HasPrefix(Stripped(lines)[k], ENC_PREFIX) && !HasPrefix(Stripped(lines)[k], SW_PREFIX)
    {
      assert Stripped(lines)[k] <= lines[k];
    }
  }

  lemma BothSecretsFound(lines: seq<string>, enc: string, sw: string, i: nat, j: nat)
    requires i < |lines| && j < |lines| && i != j
    requires lines[i] == ENC_PREFIX + enc && lines[j] == SW_PREFIX + sw
    requires forall k | 0 <= k < |lines| && k != i && k != j ::
               !HasPrefix(lines[k], ENC_PREFIX) && !HasPrefix(lines[k], SW_PREFIX)
    ensures LastValue(lines, ENC_PREFIX) == Some(enc) && LastValue(lines, SW_PREFIX) == Some(sw)
  {
    SecretLine(lines[i], ENC_PREFIX, enc);
    SecretLine(lines[j], SW_PREFIX, sw);
    OnlyLine(lines, ENC_PREFIX, enc, i);
    OnlyLine(lines, SW_PREFIX, sw, j);
  }

  lemma SecretLine(line: string, prefix: string, value: string)
    requires line == prefix + value && (prefix == ENC_PREFIX || prefix == SW_PREFIX)
    ensures HasPrefix(line, prefix)
    ensures prefix == ENC_PREFIX ==> !HasPrefix(line, SW_PREFIX)
    ensures prefix == SW_PREFIX ==> !HasPrefix(line, ENC_PREFIX)
  {
    PrefixesDiffer(line);
  }
}
