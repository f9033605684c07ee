/** What a login proves: which 28 bytes are hashed, and that a digest made for one pair of tokens is
    worth nothing under another unless SHA-1 collides. */
module Passwords {
  import opened Types
  import opened ServerSpec
  import opened Invariants
  import Accounts
  import Codec
  import Effects
  import Guarantees
  import Layout
  import Stepping

  /** The block: the client's token, the server's token, both with the low end first, and the hash
      of the password. */
  lemma SaltedBytes(clientToken: uint32, serverToken: uint32, hash: Digest)
    ensures var block := Accounts.Salted(clientToken, serverToken, hash);
            && |block| == 28
            && (forall k :: 0 <= k < 4 ==> block[k] == clientToken / Layout.Power256(k) % 256)
            && (forall k :: 0 <= k < 4 ==> block[4 + k] == serverToken / Layout.Power256(k) % 256)
            && block[8..] == hash
  {
    hide Codec.Le32, Layout.Power256;
    var block := Accounts.Salted(clientToken, serverToken, hash);
    forall k | 0 <= k < 4
      ensures block[k] == clientToken / Layout.Power256(k) % 256
      ensures block[4 + k] == serverToken / Layout.Power256(k) % 256
    {
      Layout.Le32Bytes(clientToken, k);
      Layout.Le32Bytes(serverToken, k);
    }
  }

  /** Different tokens or hashes make different blocks. */
  lemma SaltedIsInjective(c: uint32, s: uint32, h: Digest, c': uint32, s': uint32, h': Digest)
    requires Accounts.Salted(c, s, h) == Accounts.Salted(c', s', h')
    ensures c == c' && s == s' && h == h'
  {
    hide Codec.Le32;
    var a, b := Accounts.Salted(c, s, h), Accounts.Salted(c', s', h');
    assert a[..4] == Codec.Le32(c) && b[..4] == Codec.Le32(c');
    assert a[4..8] == Codec.Le32(s) && b[4..8] == Codec.Le32(s');
    assert a[8..] == h && b[8..] == h';
    Codec.Le32ThenU32(c);
    Codec.Le32ThenU32(c');
    Codec.Le32ThenU32(s);
    Codec.Le32ThenU32(s');
  }

  /** Two different blocks of the length that logins hash, with one digest. */
  ghost predicate Collides(sha1: seq<byte> -> Digest) {
    exists a, b :: |a| == 28 && |b| == 28 && a != b && sha1(a) == sha1(b)
  }

  lemma DifferentBlocksCollide(sha1: seq<byte> -> Digest, c: uint32, s: uint32, h: Digest, c': uint32, s': uint32,
                               h': Digest)
    requires sha1(Accounts.Salted(c, s, h)) == sha1(Accounts.Salted(c', s', h'))
    requires c != c' || s != s' || h != h'
    ensures Collides(sha1)
  {
    hide Accounts.Salted;
    var a, b := Accounts.Salted(c, s, h), Accounts.Salted(c', s', h');
    SaltedBytes(c, s, h);
    SaltedBytes(c', s', h');
    if a == b {
      SaltedIsInjective(c, s, h, c', s', h');
    }
  }

  /** account_login with a digest that was good for other tokens. */
  lemma AnOldDigestNeedsACollision(sha1: seq<byte> -> Digest, f: string, name: string, digest: Digest,
                                   c: uint32, s: uint32, c': uint32, s': uint32)
    requires Accounts.Login(sha1, f, name, digest, c, s) == Some(Accounts.LoginSuccess)
    requires Accounts.Login(sha1, f, name, digest, c', s') == Some(Accounts.LoginSuccess)
    requires c != c' || s != s'
    ensures Collides(sha1)
  {
    hide Accounts.Salted, Collides, Accounts.FindLine, Accounts.ParseHash;
    var stored := Accounts.Stored(f, name).value;
    DifferentBlocksCollide(sha1, c, s, stored, c', s', stored);
  }

  lemma {:induction false} HashFunctionStays(s: State, es: seq<Event>)
    requires Inv(s)
    ensures Run(s, es).sha1 == s.sha1
    decreases |es|
  {
    hide InvExcept, Step;
    if es != [] {
      var n := |es| - 1;
      HashFunctionStays(s, es[..n]);
      Stepping.RunKeeps(s, es[..n]);
      StepKeepsHashFunction(Run(s, es[..n]), es[n]);
    }
  }

  lemma StepKeepsHashFunction(s: State, e: Event)
    requires Inv(s)
    ensures Step(s, e).sha1 == s.sha1
  {
    hide InvExcept, PollOld, PollNew;
    if e.Poll? {
      Stepping.CollectionsMatchStates(s, e.who);
      if e.who < |s.users| && s.users[e.who].open {
        Effects.PollExtends(s, e.who, e.reading, e.lines);
      }
    }
  }

  /** A digest that a server took from one connection and, whatever happened in between, takes again
      from a connection with other tokens, is a collision of SHA-1. */
  lemma AReplayedLoginNeedsACollision(s: State, es: seq<Event>, i: nat, j: nat, digest: Digest, name: string)
    requires Inv(s) && i < |s.users| && j < |Run(s, es).users|
    requires LoginStatus(s, s.users[i], digest, name) == Some(Accounts.LoginSuccess)
    requires LoginStatus(Run(s, es), Run(s, es).users[j], digest, name) == Some(Accounts.LoginSuccess)
    requires var u, v := s.users[i], Run(s, es).users[j];
             u.clientToken != v.clientToken || u.serverToken != v.serverToken
    ensures Collides(s.sha1)
  {
    hide InvExcept, Run, LoginStatus, Accounts.Salted, Collides, Accounts.Stored;
    var t := Run(s, es);
    var u, v, stored := s.users[i], t.users[j], Accounts.Stored(s.file, name);
    Stepping.RunKeeps(s, es);
    HashFunctionStays(s, es);
    Stepping.LoginStatusIsSound(s, i, digest, name);
    Stepping.LoginStatusIsSound(t, j, digest, name);
    Guarantees.RoomsAndAccountsPersist(s, es, "", name);
    DifferentBlocksCollide(s.sha1, u.clientToken, u.serverToken, stored.value, v.clientToken, v.serverToken,
                           stored.value);
  }
}
