/** account.c: a text file of `name;40 hex digits` lines, appended to by account_create and read
    back through fgets calls of at most 72 characters. */
module Accounts {
  import opened Types
  import Codec

  datatype LoginStatus = LoginSuccess | IncorrectPassword | UnknownAccount | AccountInUse
  datatype CreateStatus = CreateSuccess | NameTooShort | NameTooLong | NameIllegal | AccountExists

  const MAX_RECORD: nat := MAX_NAME + HASH_LENGTH * 2 + 2

  // ---- reading ----

  /** One fgets call with size MAX_RECORD - 1: up to 72 characters, ending early at a newline. */
  function ChunkLength(f: string): (n: nat)
    requires f != ""
    ensures 1 <= n <= |f|
  {
    var line := if IndexOfChar(f, '\n') < |f| then IndexOfChar(f, '\n') + 1 else |f|;
    if line <= MAX_RECORD - 2 then line else MAX_RECORD - 2
  }

  lemma LineEndsAt(f: string, n: nat)
    requires n < |f| && n < MAX_RECORD - 2 && f[n] == '\n' && forall j :: 0 <= j < n ==> f[j] != '\n'
    ensures ChunkLength(f) == n + 1
  {
    IndexOfCharIs(f, '\n', n);
  }

  lemma NoLineEndBefore(f: string, n: nat)
    requires f != "" && n <= |f| && forall j :: 0 <= j < n ==> f[j] != '\n'
    requires n == MAX_RECORD - 2 || (n == |f| && n <= MAX_RECORD - 2)
    ensures ChunkLength(f) == n
  {
  }

  /** What follows the ';' in the first chunk whose text before ';' is the name. */
  function FindLine(f: string, name: string): (r: Option<string>)
    decreases |f|
  {
    if f == "" then None
    else
      var n := ChunkLength(f);
      var d := IndexOfChar(f[..n], ';');
      if d < n && f[..d] == name then Some(f[d + 1..n]) else FindLine(f[n..], name)
  }

  lemma EmptyFile(name: string)
    ensures FindLine("", name) == None
  {
  }

  lemma FindLineStep(f: string, chunk: string, name: string)
    requires f != "" && chunk == f[..ChunkLength(f)]
    ensures var d := IndexOfChar(chunk, ';');
            FindLine(f, name) ==
            if d < |chunk| && chunk[..d] == name then Some(chunk[d + 1..]) else FindLine(f[|chunk|..], name)
  {
    var d := IndexOfChar(chunk, ';');
    assert chunk[..d] == f[..d];
    assert d < |chunk| ==> chunk[d + 1..] == f[d + 1..|chunk|];
  }

  predicate IsHex(c: char) {
    '0' <= c <= '9' || 'a' <= c <= 'f' || 'A' <= c <= 'F'
  }

  function HexValue(c: char): (v: nat)
    requires IsHex(c)
    ensures v < 16
  {
    if c <= '9' then c as int - '0' as int
    else if c <= 'F' then c as int - 'A' as int + 10
    else c as int - 'a' as int + 10
  }

  /** The stored hash after the ';', or None where the program prints an error and exits. */
  function ParseHash(s: string): (r: Option<Digest>) {
    if HasHexHash(s) then Some(HashBytes(s)) else None
  }

  function HashBytes(s: string): (d: Digest)
    requires HasHexHash(s)
    ensures forall i :: 0 <= i < HASH_LENGTH ==> d[i] == ByteAt(s, i)
  {
    seq(HASH_LENGTH, i requires 0 <= i < HASH_LENGTH => ByteAt(s, i))
  }

  predicate HasHexHash(s: string) {
    |s| >= 2 * HASH_LENGTH && forall i :: 0 <= i < 2 * HASH_LENGTH ==> IsHex(s[i])
  }

  function ByteAt(s: string, i: nat): byte
    requires HasHexHash(s) && i < HASH_LENGTH
  {
    HexValue(s[2 * i]) * 16 + HexValue(s[2 * i + 1])
  }

  // ---- writing ----

  function HexDigit(v: nat): (c: char)
    requires v < 16
    ensures IsHex(c) && HexValue(c) == v
  {
    if v < 10 then (v + '0' as int) as char else (v - 10 + 'a' as int) as char
  }

  function HexAt(hash: Digest, i: nat): (c: char)
    requires i < 2 * HASH_LENGTH
    ensures IsHex(c)
  {
    HexDigit(if i % 2 == 0 then hash[i / 2] / 16 else hash[i / 2] % 16)
  }

  /** "%02x" for every byte. */
  function Hex(hash: Digest): (s: string)
    ensures |s| == 2 * HASH_LENGTH
    ensures forall i :: 0 <= i < |s| ==> s[i] == HexAt(hash, i)
  {
    seq(2 * HASH_LENGTH, i requires 0 <= i < 2 * HASH_LENGTH => HexAt(hash, i))
  }

  function Print(name: string, hash: Digest): string {
    name + ";" + Hex(hash) + "\n"
  }

  lemma HexRoundTrip(hash: Digest, tail: string)
    ensures ParseHash(Hex(hash) + tail) == Some(hash)
  {
    var s := Hex(hash) + tail;
    assert forall i :: 0 <= i < 2 * HASH_LENGTH ==> s[i] == Hex(hash)[i] == HexAt(hash, i);
    assert HasHexHash(s);
    forall i | 0 <= i < HASH_LENGTH
      ensures ByteAt(s, i) == hash[i]
    {
      assert (2 * i) / 2 == i && (2 * i + 1) / 2 == i;
    }
    assert HashBytes(s) == hash;
  }

  // ---- the operations ----

  predicate Printable(c: char) {
    0x20 <= c as int <= 0x7E
  }

  predicate LegalName(name: string) {
    forall i :: 0 <= i < |name| ==> Printable(name[i]) && name[i] != ';'
  }

  /** account_create: its result and the new file. */
  function Create(f: string, name: string, hash: Digest): (r: (CreateStatus, string)) {
    if |name| < MIN_NAME then (NameTooShort, f)
    else if |name| >= MAX_NAME then (NameTooLong, f)
    else if !LegalName(name) then (NameIllegal, f)
    else if FindLine(f, name).Some? then (AccountExists, f)
    else (CreateSuccess, f + Print(name, hash))
  }

  /** password_hash_second's input: both tokens little-endian, then the stored hash. */
  function Salted(clientToken: uint32, serverToken: uint32, stored: Digest): seq<byte> {
    Codec.Le32(clientToken) + Codec.Le32(serverToken) + stored
  }

  /** account_login; None is the exit on a malformed hash. */
  function Login(sha1: seq<byte> -> Digest, f: string, name: string, digest: Digest, clientToken: uint32,
                 serverToken: uint32): (r: Option<LoginStatus>)
  {
    var line := FindLine(f, name);
    if line.None? then Some(UnknownAccount)
    else
      var stored :- ParseHash(line.value);
      Some(if sha1(Salted(clientToken, serverToken, stored)) == digest then LoginSuccess else IncorrectPassword)
  }

  // ---- the file as a list of records ----

  datatype Record = Record(name: string, hash: Digest)

  predicate ValidName(name: string) {
    MIN_NAME <= |name| < MAX_NAME && LegalName(name)
  }

  ghost predicate ValidRecords(rs: seq<Record>) {
    && (forall i :: 0 <= i < |rs| ==> ValidName(rs[i].name))
    && (forall i, j :: 0 <= i < j < |rs| ==> rs[i].name != rs[j].name)
  }

  function PrintAll(rs: seq<Record>): string {
    if rs == [] then "" else Print(rs[0].name, rs[0].hash) + PrintAll(rs[1..])
  }

  /** A file that some run of account_create could have written. */
  ghost predicate WellFormed(f: string) {
    exists rs :: ValidRecords(rs) && f == PrintAll(rs)
  }

  function Lookup(rs: seq<Record>, name: string): (r: Option<Digest>)
    ensures r.Some? <==> exists i :: 0 <= i < |rs| && rs[i].name == name
  {
    if rs == [] then None
    else if rs[0].name == name then Some(rs[0].hash)
    else Lookup(rs[1..], name)
  }

  /** The hash the server would use for a name. */
  function Stored(f: string, name: string): Option<Digest> {
    var line :- FindLine(f, name);
    ParseHash(line)
  }

  /** The text of a record as it comes out of the first fgets call. A 31-character name makes a
      line of 73 characters, one more than fgets returns, so the newline is left behind. */
  function RecordChunk(name: string, hash: Digest): string {
    name + (";" + (Hex(hash) + (if |name| == MAX_NAME - 1 then "" else "\n")))
  }

  lemma FirstChunkOfRecord(name: string, hash: Digest, rest: string)
    requires ValidName(name)
    ensures var f := Print(name, hash) + rest;
            && f[..ChunkLength(f)] == RecordChunk(name, hash)
            && f[ChunkLength(f)..] == (if |name| == MAX_NAME - 1 then "\n" else "") + rest
  {
    hide IsHex, HexValue, HexAt;
    var f, line := Print(name, hash) + rest, |name| + 1 + 2 * HASH_LENGTH;
    forall j | 0 <= j < line
      ensures f[j] != '\n'
    {
      if j < |name| {
        assert f[j] == name[j] && Printable(name[j]);
      } else if j > |name| {
        assert f[j] == Hex(hash)[j - |name| - 1];
        HexIsNotNewline(HexAt(hash, j - |name| - 1));
      }
    }
    IndexOfCharIs(f, '\n', line);
  }

  lemma DelimiterOfRecord(name: string, tail: string)
    requires LegalName(name)
    ensures var c := name + (";" + tail);
            IndexOfChar(c, ';') == |name| && c[..|name|] == name && c[|name| + 1..] == tail
  {
    var c := name + (";" + tail);
    assert forall j :: 0 <= j < |name| ==> c[j] == name[j];
    IndexOfCharIs(c, ';', |name|);
  }

  /** Searching a file that starts with a printed record. */
  lemma FindInFirstRecord(name: string, hash: Digest, rest: string, wanted: string)
    requires ValidName(name)
    ensures FindLine(Print(name, hash) + rest, wanted) ==
            if wanted == name then Some(Hex(hash) + (if |name| == MAX_NAME - 1 then "" else "\n"))
            else FindLine(rest, wanted)
  {
    hide ChunkLength, Print, Hex;
    var f, end := Print(name, hash) + rest, if |name| == MAX_NAME - 1 then "" else "\n";
    FirstChunkOfRecord(name, hash, rest);
    DelimiterOfRecord(name, Hex(hash) + end);
    NonEmptyRecord(name, hash);
    FindLineStep(f, RecordChunk(name, hash), wanted);
    if |name| == MAX_NAME - 1 {
      LoneNewlineIsSkipped(rest, wanted);
    } else {
      assert "" + rest == rest;
    }
  }

  lemma NonEmptyRecord(name: string, hash: Digest)
    ensures Print(name, hash) != ""
  {
  }

  lemma HexIsNotNewline(c: char)
    requires IsHex(c)
    ensures c != '\n' && c != ';'
  {
  }

  lemma LoneNewlineIsSkipped(rest: string, wanted: string)
    ensures FindLine("\n" + rest, wanted) == FindLine(rest, wanted)
  {
    var f := "\n" + rest;
    IndexOfCharIs(f, '\n', 0);
    assert f[..1] == "\n" && f[1..] == rest;
    IndexOfCharIs(f[..1], ';', 1);
  }

  /** First-match search of the text is a lookup in the records, with the hash intact. */
  lemma {:induction false} FindIsLookup(rs: seq<Record>, name: string)
    requires ValidRecords(rs)
    ensures Stored(PrintAll(rs), name) == Lookup(rs, name)
    ensures FindLine(PrintAll(rs), name).Some? <==> Lookup(rs, name).Some?
    decreases |rs|
  {
    hide Print, ParseHash;
    if rs != [] {
      var r := rs[0];
      FindInFirstRecord(r.name, r.hash, PrintAll(rs[1..]), name);
      HexRoundTrip(r.hash, "");
      HexRoundTrip(r.hash, "\n");
      assert Hex(r.hash) + "" == Hex(r.hash);
      FindIsLookup(rs[1..], name);
    }
  }

  lemma {:induction false} PrintAllAppends(rs: seq<Record>, r: Record)
    ensures PrintAll(rs + [r]) == PrintAll(rs) + Print(r.name, r.hash)
    decreases |rs|
  {
    hide Print;
    if rs == [] {
      assert [r][1..] == [];
      assert PrintAll([r]) == Print(r.name, r.hash) + "";
    } else {
      assert (rs + [r])[1..] == rs[1..] + [r];
      PrintAllAppends(rs[1..], r);
    }
  }

  lemma {:induction false} LookupAppends(rs: seq<Record>, r: Record, name: string)
    requires Lookup(rs, r.name).None?
    ensures Lookup(rs + [r], name) == if name == r.name then Some(r.hash) else Lookup(rs, name)
    decreases |rs|
  {
    if rs != [] {
      assert (rs + [r])[1..] == rs[1..] + [r];
      LookupAppends(rs[1..], r, name);
    }
  }

  /** account_create on a well-formed file: it succeeds, and appends exactly one record, exactly
      when the name is valid and absent; the new account is then found with its own hash, every
      other name is found as before, and the file stays well-formed. */
  lemma CreateRoundTrip(f: string, name: string, hash: Digest, other: string)
    requires WellFormed(f)
    ensures var (status, f') := Create(f, name, hash);
            && (status == CreateSuccess <==> ValidName(name) && Stored(f, name).None?)
            && (status == AccountExists <==> ValidName(name) && Stored(f, name).Some?)
            && (status != CreateSuccess ==> f' == f)
            && (status == CreateSuccess ==> f' == f + Print(name, hash))
            && WellFormed(f')
            && Stored(f', other) == if status == CreateSuccess && other == name then Some(hash) else Stored(f, other)
  {
    hide Print, ParseHash, FindLine, Stored, Lookup, PrintAll, LegalName;
    var rs: seq<Record> :| ValidRecords(rs) && f == PrintAll(rs);
    var (status, f') := Create(f, name, hash);
    FindIsLookup(rs, name);
    if status == CreateSuccess {
      var r := Record(name, hash);
      PrintAllAppends(rs, r);
      LookupAppends(rs, r, other);
      FreshNameKeepsRecordsValid(rs, r);
      FindIsLookup(rs + [r], other);
      FindIsLookup(rs, other);
    }
  }

  lemma FreshNameKeepsRecordsValid(rs: seq<Record>, r: Record)
    requires ValidRecords(rs) && ValidName(r.name) && Lookup(rs, r.name) == None
    ensures ValidRecords(rs + [r])
  {
    assert forall i :: 0 <= i < |rs| ==> rs[i].name != r.name;
  }

  /** In a well-formed file every name that is found is valid and its hash is readable, so a login
      never meets the exit on a malformed line. */
  lemma FoundNamesAreValid(f: string, name: string)
    requires WellFormed(f)
    ensures FindLine(f, name).Some? <==> Stored(f, name).Some?
    ensures Stored(f, name).Some? ==> ValidName(name)
  {
    hide Print, ParseHash, FindLine;
    var rs: seq<Record> :| ValidRecords(rs) && f == PrintAll(rs);
    FindIsLookup(rs, name);
  }

  lemma ValidNameIsClean(name: string)
    requires ValidName(name)
    ensures Clean(name) && |name| < MAX_NAME
  {
    forall i | 0 <= i < |name|
      ensures Visible(name[i])
    {
      assert Printable(name[i]);
    }
  }

  // ---- the imperative store ----

  /** The file and the streams of it that are open. `descriptors` is how many descriptors the
      process may use for the file and for connections together; the number used by connections
      comes with every call. */
  class AccountStore {
    const sha1: seq<byte> -> Digest
    const descriptors: nat
    var contents: string
    var streams: nat

    constructor (sha1: seq<byte> -> Digest, descriptors: nat, contents: string)
      ensures this.sha1 == sha1 && this.descriptors == descriptors && this.contents == contents && streams == 0
    {
      this.sha1, this.descriptors, this.contents, streams := sha1, descriptors, contents, 0;
    }

    /** fopen of the account file, which fails when no descriptor is left. */
    method Fopen(connections: nat) returns (ok: bool)
      modifies this`streams
      ensures ok <==> connections + old(streams) < descriptors
      ensures streams == if ok then old(streams) + 1 else old(streams)
    {
      ok := connections + streams < descriptors;
      if ok {
        streams := streams + 1;
      }
    }

    method Fclose()
      requires streams > 0
      modifies this`streams
      ensures streams == old(streams) - 1
    {
      streams := streams - 1;
    }

    /** fgets(buffer, MAX_RECORD - 1, file) from an offset; an empty result is end of file. */
    method Fgets(offset: nat) returns (chunk: string)
      requires offset <= |contents|
      ensures if offset == |contents| then chunk == ""
              else chunk == contents[offset..][..ChunkLength(contents[offset..])]
    {
      hide ChunkLength;
      ghost var f := contents[offset..];
      chunk := "";
      while offset + |chunk| < |contents| && |chunk| < MAX_RECORD - 2
        invariant |chunk| <= |f| && chunk == f[..|chunk|] && |chunk| <= MAX_RECORD - 2
        invariant forall j :: 0 <= j < |chunk| ==> f[j] != '\n'
        decreases |contents| - |chunk|
      {
        var c := contents[offset + |chunk|];
        assert f[..|chunk| + 1] == f[..|chunk|] + [c];
        chunk := chunk + [c];
        if c == '\n' {
          LineEndsAt(f, |chunk| - 1);
          return;
        }
      }
      if offset < |contents| {
        NoLineEndBefore(f, |chunk|);
      }
    }

    method Strchr(s: string, c: char) returns (i: nat)
      ensures i == IndexOfChar(s, c)
    {
      i := 0;
      while i < |s| && s[i] != c
        invariant 0 <= i <= |s|
        invariant forall j :: 0 <= j < i ==> s[j] != c
      {
        i := i + 1;
      }
      IndexOfCharIs(s, c, i);
    }

    /** find_account up to the hash. Not alive is the exit when the file cannot be opened. A caller
        that wants no record gets TRUE while the stream is still open. */
    method FindAccount(name: string, wanted: bool, connections: nat) returns (alive: bool, found: bool, line: string)
      modifies this`streams
      ensures alive <==> connections + old(streams) < descriptors
      ensures alive ==> FindLine(contents, name) == if found then Some(line) else None
      ensures streams == if alive && found && !wanted then old(streams) + 1 else old(streams)
    {
      alive := Fopen(connections);
      found, line := false, "";
      if !alive {
        return;
      }
      found, line := Search(name);
      if !found || wanted {
        Fclose();
      }
    }

    /** The read loop of find_account. */
    method Search(name: string) returns (found: bool, line: string)
      ensures FindLine(contents, name) == if found then Some(line) else None
    {
      hide ChunkLength, FindLine;
      var offset := 0;
      var buffer := Fgets(offset);
      assert contents[0..] == contents;
      while buffer != ""
        invariant offset <= |contents|
        invariant FindLine(contents, name) == FindLine(contents[offset..], name)
        invariant if offset == |contents| then buffer == ""
                  else buffer == contents[offset..][..ChunkLength(contents[offset..])]
        decreases |contents| - offset
      {
        var delimit := Strchr(buffer, ';');
        FindLineStep(contents[offset..], buffer, name);
        if delimit < |buffer| && buffer[..delimit] == name {
          return true, buffer[delimit + 1..];
        }
        assert contents[offset..][|buffer|..] == contents[offset + |buffer|..];
        offset := offset + |buffer|;
        buffer := Fgets(offset);
      }
      assert contents[offset..] == "";
      EmptyFile(name);
      return false, "";
    }

    /** The hash-reading loop of find_account; not ok is the exit on a malformed line. */
    method ReadHash(line: string) returns (ok: bool, hash: Digest)
      ensures ParseHash(line) == if ok then Some(hash) else None
    {
      hash := seq(HASH_LENGTH, i => 0);
      if |line| < 2 * HASH_LENGTH {
        return false, hash;
      }
      var bytes: seq<byte>, i := [], 0;
      while i < HASH_LENGTH
        invariant 0 <= i <= HASH_LENGTH && |bytes| == i
        invariant forall j :: 0 <= j < 2 * i ==> IsHex(line[j])
        invariant forall j :: 0 <= j < i ==> bytes[j] == HexValue(line[2 * j]) * 16 + HexValue(line[2 * j + 1])
      {
        if !IsHex(line[2 * i]) || !IsHex(line[2 * i + 1]) {
          return false, hash;
        }
        bytes := bytes + [HexValue(line[2 * i]) * 16 + HexValue(line[2 * i + 1])];
        i := i + 1;
      }
      assert HasHexHash(line);
      assert bytes == HashBytes(line);
      return true, bytes;
    }

    /** account_create; not alive is the exit when the file cannot be opened. add_account never
        exits: find_account has just closed the stream that it opened. */
    method AccountCreate(name: string, hash: Digest, connections: nat) returns (alive: bool, status: CreateStatus)
      modifies this`contents, this`streams
      ensures alive <==> !(ValidName(name) && connections + old(streams) >= descriptors)
      ensures alive ==> (status, contents) == Create(old(contents), name, hash)
      ensures !alive ==> contents == old(contents)
      ensures streams == if alive && status.AccountExists? then old(streams) + 1 else old(streams)
    {
      if |name| < MIN_NAME {
        return true, NameTooShort;
      }
      if |name| >= MAX_NAME {
        return true, NameTooLong;
      }
      var i := 0;
      while i < |name|
        invariant 0 <= i <= |name|
        invariant forall j :: 0 <= j < i ==> Printable(name[j]) && name[j] != ';'
      {
        if !Printable(name[i]) || name[i] == ';' {
          return true, NameIllegal;
        }
        i := i + 1;
      }
      var found, line;
      alive, found, line := FindAccount(name, false, connections);
      if !alive || found {
        return alive, AccountExists;
      }
      alive := AddAccount(name, hash, connections);
      return alive, CreateSuccess;
    }

    /** add_account. Its assertion that the name has no ';' is the precondition. */
    method AddAccount(name: string, hash: Digest, connections: nat) returns (alive: bool)
      requires ';' !in name
      modifies this`contents, this`streams
      ensures alive <==> connections + old(streams) < descriptors
      ensures contents == (if alive then old(contents) + Print(name, hash) else old(contents))
      ensures streams == old(streams)
    {
      alive := Fopen(connections);
      if !alive {
        return;
      }
      Append(name, hash);
      Fclose();
    }

    /** The fprintf calls of add_account. */
    method Append(name: string, hash: Digest)
      modifies this`contents
      ensures contents == old(contents) + Print(name, hash)
    {
      ghost var before := contents;
      contents := contents + name + ";";
      var i := 0;
      while i < HASH_LENGTH
        invariant 0 <= i <= HASH_LENGTH
        invariant contents == before + (name + ";") + Hex(hash)[..2 * i]
      {
        contents := contents + [HexDigit(hash[i] / 16), HexDigit(hash[i] % 16)];
        assert (2 * i) / 2 == i && (2 * i + 1) / 2 == i && (2 * i) % 2 == 0 && (2 * i + 1) % 2 == 1;
        assert Hex(hash)[..2 * i + 2] == Hex(hash)[..2 * i] + [Hex(hash)[2 * i], Hex(hash)[2 * i + 1]];
        i := i + 1;
      }
      assert Hex(hash)[..2 * i] == Hex(hash);
      contents := contents + "\n";
      assert contents == before + Print(name, hash);
    }

    /** account_login; not ok is the exit on a malformed line or when the file cannot be opened. */
    method AccountLogin(name: string, digest: Digest, clientToken: uint32, serverToken: uint32, connections: nat)
      returns (ok: bool, status: LoginStatus)
      modifies this`streams
      ensures if connections + old(streams) >= descriptors then !ok
              else Login(sha1, contents, name, digest, clientToken, serverToken) == if ok then Some(status) else None
      ensures streams == old(streams)
    {
      var found, line;
      ok, found, line := FindAccount(name, true, connections);
      if !ok || !found {
        return ok, UnknownAccount;
      }
      var stored: Digest;
      ok, stored := ReadHash(line);
      if !ok {
        return false, UnknownAccount;
      }
      var good := sha1(Salted(clientToken, serverToken, stored));
      var i := 0;
      while i < HASH_LENGTH
        invariant 0 <= i <= HASH_LENGTH
        invariant good[..i] == digest[..i]
      {
        if good[i] != digest[i] {
          return true, IncorrectPassword;
        }
        assert good[..i + 1] == good[..i] + [good[i]] == digest[..i] + [digest[i]] == digest[..i + 1];
        i := i + 1;
      }
      assert good == good[..HASH_LENGTH] && digest == digest[..HASH_LENGTH];
      return true, LoginSuccess;
    }
  }
}
