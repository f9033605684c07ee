/** Which names can be registered, in numbers, and what is then in the account file. */
module Registration {
  import opened Types
  import opened Messages
  import opened ServerSpec
  import opened Invariants
  import Accounts
  import Codec
  import Guarantees

  /** A character that no name may have: outside 32 to 126, or a semicolon. */
  ghost predicate HasForbidden(name: string) {
    exists k :: 0 <= k < |name| && (name[k] as int < 32 || name[k] as int > 126 || name[k] == ';')
  }

  lemma ValidNameIs(name: string)
    ensures Accounts.ValidName(name) <==> 2 <= |name| <= 31 && !HasForbidden(name)
  {
  }

  /** The answer to a create for this name. */
  ghost predicate Judged(status: Accounts.CreateStatus, name: string, known: bool) {
    && (status.NameTooShort? <==> |name| < 2)
    && (status.NameTooLong? <==> |name| >= 32)
    && (status.NameIllegal? <==> 2 <= |name| <= 31 && HasForbidden(name))
    && (status.AccountExists? <==> 2 <= |name| <= 31 && !HasForbidden(name) && known)
    && (status.CreateSuccess? <==> 2 <= |name| <= 31 && !HasForbidden(name) && !known)
  }

  lemma CreateStatusIs(f: string, name: string, hash: Digest)
    requires Accounts.WellFormed(f)
    ensures Judged(Accounts.Create(f, name, hash).0, name, Accounts.Stored(f, name).Some?)
  {
    hide Accounts.WellFormed, Accounts.Stored, Accounts.FindLine, Accounts.Print, HasForbidden, Accounts.LegalName;
    ValidNameIs(name);
    Accounts.FoundNamesAreValid(f, name);
  }

  /** The same of the packet that the server answers with; a name that could be registered ends the
      process when no descriptor is left. */
  lemma CreateIsAnswered(s: State, i: nat, b: seq<byte>, lines: seq<Notice>)
    requires Inv(s) && !s.crashed && i < |s.users| && s.users[i].open && s.users[i].state == SentClientInformation
    requires 4 <= |b| && b[1] == 5 && ParseCredentials(b).Some?
    ensures var r, name := Handle(s, i, b, lines), ParseCredentials(b).value.1;
            && (r.crashed <==> 2 <= |name| <= 31 && !HasForbidden(name) && InUse(s) >= s.descriptors)
            && (!r.crashed ==>
                  && |r.users| == |s.users| && |r.users[i].sent| == |s.users[i].sent| + 1
                  && r.users[i].sent[..|s.users[i].sent|] == s.users[i].sent
                  && var answer := r.users[i].sent[|s.users[i].sent|];
                     && answer.CreateResponse? && answer.name == name
                     && Judged(answer.create, name, Accounts.Stored(s.file, name).Some?))
  {
    hide InvExcept, ParseCredentials, Accounts.Create, Accounts.Stored, Accounts.ValidName, HasForbidden, Judged;
    var (hash, name) := ParseCredentials(b).value;
    ValidNameIs(name);
    Guarantees.InvHasFile(s);
    CreateStatusIs(s.file, name, hash);
  }

  // ---- the record ----

  const DIGITS := "0123456789abcdef"
  const CAPITAL_DIGITS := "0123456789ABCDEF"

  /** Hexadecimal digits are read in both forms and written in the small one. */
  lemma HexDigitsAre(v: nat, c: char)
    requires v < 16
    ensures Accounts.HexDigit(v) == DIGITS[v]
    ensures Accounts.IsHex(DIGITS[v]) && Accounts.HexValue(DIGITS[v]) == v
    ensures Accounts.IsHex(CAPITAL_DIGITS[v]) && Accounts.HexValue(CAPITAL_DIGITS[v]) == v
    ensures Accounts.IsHex(c) ==> DIGITS[Accounts.HexValue(c)] == c || CAPITAL_DIGITS[Accounts.HexValue(c)] == c
  {
  }

  predicate Denotes(c: char, v: nat)
    requires v < 16
  {
    c == DIGITS[v] || c == CAPITAL_DIGITS[v]
  }

  lemma ADigitIsItsValue(c: char, v: nat)
    requires v < 16
    ensures Denotes(c, v) <==> Accounts.IsHex(c) && Accounts.HexValue(c) == v
  {
    HexDigitsAre(v, c);
    if Accounts.IsHex(c) {
      HexDigitsAre(Accounts.HexValue(c), c);
    }
  }

  /** A stored hash is read exactly if it starts with forty hexadecimal digits, two for each byte,
      the high one first. */
  lemma TheHashRead(line: string, hash: Digest)
    ensures Accounts.ParseHash(line) == Some(hash) <==>
              && |line| >= 40
              && forall k :: 0 <= k < 20 ==>
                   Denotes(line[2 * k], hash[k] / 16) && Denotes(line[2 * k + 1], hash[k] % 16)
  {
    hide Denotes, Accounts.IsHex, Accounts.HexValue;
    if |line| >= 40 {
      forall k | 0 <= k < 20
        ensures Denotes(line[2 * k], hash[k] / 16) <==>
                Accounts.IsHex(line[2 * k]) && Accounts.HexValue(line[2 * k]) == hash[k] / 16
        ensures Denotes(line[2 * k + 1], hash[k] % 16) <==>
                Accounts.IsHex(line[2 * k + 1]) && Accounts.HexValue(line[2 * k + 1]) == hash[k] % 16
      {
        ADigitIsItsValue(line[2 * k], hash[k] / 16);
        ADigitIsItsValue(line[2 * k + 1], hash[k] % 16);
      }
      if Accounts.ParseHash(line) == Some(hash) {
        BothDigits(line, hash);
      } else if forall k :: 0 <= k < 20 ==>
                  Denotes(line[2 * k], hash[k] / 16) && Denotes(line[2 * k + 1], hash[k] % 16) {
        FromDigits(line, hash);
      }
    }
  }

  lemma BothDigits(line: string, hash: Digest)
    requires Accounts.ParseHash(line) == Some(hash)
    ensures forall k :: 0 <= k < 20 ==>
              && Accounts.IsHex(line[2 * k]) && Accounts.HexValue(line[2 * k]) == hash[k] / 16
              && Accounts.IsHex(line[2 * k + 1]) && Accounts.HexValue(line[2 * k + 1]) == hash[k] % 16
  {
    hide Accounts.IsHex, Accounts.HexValue;
    forall k | 0 <= k < 20
      ensures Accounts.IsHex(line[2 * k]) && Accounts.HexValue(line[2 * k]) == hash[k] / 16
      ensures Accounts.IsHex(line[2 * k + 1]) && Accounts.HexValue(line[2 * k + 1]) == hash[k] % 16
    {
      assert hash[k] == Accounts.ByteAt(line, k);
    }
  }

  lemma FromDigits(line: string, hash: Digest)
    requires |line| >= 40
    requires forall k :: 0 <= k < 20 ==>
               && Accounts.IsHex(line[2 * k]) && Accounts.HexValue(line[2 * k]) == hash[k] / 16
               && Accounts.IsHex(line[2 * k + 1]) && Accounts.HexValue(line[2 * k + 1]) == hash[k] % 16
    ensures Accounts.ParseHash(line) == Some(hash)
  {
    hide Accounts.IsHex, Accounts.HexValue;
    forall i | 0 <= i < 40
      ensures Accounts.IsHex(line[i])
    {
      var k := i / 2;
      assert i == 2 * k || i == 2 * k + 1;
    }
    assert Accounts.HasHexHash(line);
    assert forall k :: 0 <= k < 20 ==> Accounts.ByteAt(line, k) == hash[k];
    assert Accounts.HashBytes(line) == hash;
  }

  /** A successful create appends the name, a semicolon, two small hexadecimal digits for each byte
      of the hash, the high one first, and a newline. */
  lemma TheRecordWritten(f: string, name: string, hash: Digest)
    requires Accounts.Create(f, name, hash).0 == Accounts.CreateSuccess
    ensures var record := Accounts.Create(f, name, hash).1[|f|..];
            && Accounts.Create(f, name, hash).1[..|f|] == f
            && |record| == |name| + 42
            && record[..|name|] == name && record[|name|] == ';' && record[|name| + 41] == '\n'
            && forall k :: 0 <= k < 20 ==>
                 && record[|name| + 1 + 2 * k] == DIGITS[hash[k] / 16]
                 && record[|name| + 2 + 2 * k] == DIGITS[hash[k] % 16]
  {
    hide Accounts.FindLine, Accounts.LegalName, Accounts.HexAt;
    var record := Accounts.Print(name, hash);
    assert (f + record)[|f|..] == record && (f + record)[..|f|] == f;
    forall k | 0 <= k < 20
      ensures record[|name| + 1 + 2 * k] == DIGITS[hash[k] / 16] && record[|name| + 2 + 2 * k] == DIGITS[hash[k] % 16]
    {
      assert record[|name| + 1 + 2 * k] == Accounts.HexAt(hash, 2 * k);
      assert record[|name| + 2 + 2 * k] == Accounts.HexAt(hash, 2 * k + 1);
      DigitsOfAByte(hash, k);
    }
  }

  lemma DigitsOfAByte(hash: Digest, k: nat)
    requires k < 20
    ensures Accounts.HexAt(hash, 2 * k) == DIGITS[hash[k] / 16]
    ensures Accounts.HexAt(hash, 2 * k + 1) == DIGITS[hash[k] % 16]
  {
    hide Accounts.HexDigit;
    assert (2 * k) / 2 == k && (2 * k + 1) / 2 == k;
    HexDigitsAre(hash[k] / 16, '0');
    HexDigitsAre(hash[k] % 16, '0');
  }
}
