/** The command names of chat: capitals do not matter, and the aliases are those that /help promises. */
module Commands {
  import opened Types
  import opened Messages
  import opened ServerSpec

  const ALIASES: seq<seq<string>> := [JOIN_NAMES, HELP_NAMES, FINGER_NAMES, WHISPER_NAMES, WHO_NAMES, ROOMS_NAMES]

  lemma NamedIgnoresCase(a: string, b: string, names: seq<string>)
    requires SameIgnoringCase(a, b)
    ensures Named(a, names) <==> Named(b, names)
  {
    hide Lower;
    if k :| 0 <= k < |names| && SameIgnoringCase(a, names[k]) {
      assert SameIgnoringCase(b, names[k]);
    }
    if k :| 0 <= k < |names| && SameIgnoringCase(b, names[k]) {
      assert SameIgnoringCase(a, names[k]);
    }
  }

  /** Two spellings that differ in capitals are the same command. */
  lemma CapitalsDoNotMatter(s: State, i: nat, a: string, b: string, param: string, lines: seq<Notice>)
    requires SameIgnoringCase(a, b)
    ensures Command(s, i, a, param, lines) == Command(s, i, b, param, lines)
  {
    hide Named, Join, Listing, Whisper, Tell, SameIgnoringCase;
    forall names: seq<string>
      ensures Named(a, names) <==> Named(b, names)
    {
      NamedIgnoresCase(a, b, names);
    }
  }

  /** A name's place in the list, told from its length and two of its letters. */
  function GroupOf(a: string): nat {
    if |a| == 1 then (if a[0] == 'h' || a[0] == '?' then 1 else 3)
    else if |a| == 3 then (if a[0] == 'm' then 3 else 4)
    else if |a| == 4 then (if a[0] == 'j' then 0 else if a[0] == 'h' then 1 else 4)
    else if |a| == 5 then (if a[0] == 'w' then 2 else 5)
    else if |a| == 6 then 2
    else if |a| == 7 then (if a[0] == 'c' then 0 else if a[2] == 'e' then 2 else 3)
    else 5
  }

  predicate NoCapitals(a: string) {
    forall i :: 0 <= i < |a| ==> !('A' <= a[i] <= 'Z')
  }

  lemma GroupIs(a: string, k: nat)
    requires k < |ALIASES| && a in ALIASES[k]
    ensures GroupOf(a) == k && NoCapitals(a)
  {
    assert k == 0 ==> a in JOIN_NAMES;
    assert k == 1 ==> a in HELP_NAMES;
    assert k == 2 ==> a in FINGER_NAMES;
    assert k == 3 ==> a in WHISPER_NAMES;
    assert k == 4 ==> a in WHO_NAMES;
    assert k == 5 ==> a in ROOMS_NAMES;
  }

  /** No name stands in two groups, in any capitals. */
  lemma SpellsOnly(a: string, k: nat, j: nat)
    requires k < |ALIASES| && a in ALIASES[k] && j < |ALIASES|
    ensures Named(a, ALIASES[j]) <==> j == k
  {
    hide GroupOf;
    GroupIs(a, k);
    if j == k {
      SpellsItself(a, ALIASES[k]);
    } else {
      forall n | 0 <= n < |ALIASES[j]|
        ensures !SameIgnoringCase(a, ALIASES[j][n])
      {
        GroupIs(ALIASES[j][n], j);
        GroupsTellApart(a, ALIASES[j][n]);
      }
    }
  }

  lemma GroupsTellApart(a: string, b: string)
    requires NoCapitals(a) && NoCapitals(b) && GroupOf(a) != GroupOf(b)
    ensures !SameIgnoringCase(a, b)
  {
    hide GroupOf;
    if SameIgnoringCase(a, b) {
      SpelledAlike(a, b);
    }
  }

  lemma SpelledAlike(a: string, b: string)
    requires NoCapitals(a) && NoCapitals(b) && SameIgnoringCase(a, b)
    ensures a == b
  {
    assert forall i :: 0 <= i < |a| ==> Lower(a[i]) == a[i] && Lower(b[i]) == b[i];
  }

  lemma SpellsItself(a: string, names: seq<string>)
    requires a in names
    ensures Named(a, names)
  {
    var n :| 0 <= n < |names| && names[n] == a;
    assert SameIgnoringCase(a, names[n]);
  }

  /** The names that /help lists together are one command, whatever their order in the dispatch. */
  lemma AliasesAreAsDocumented(s: State, i: nat, a: string, b: string, k: nat, param: string, lines: seq<Notice>)
    requires k < |ALIASES| && a in ALIASES[k] && b in ALIASES[k]
    ensures Command(s, i, a, param, lines) == Command(s, i, b, param, lines)
    ensures Command(s, i, a, param, lines) ==
            if k == 0 then Join(s, i, param) else if k == 3 then Whisper(s, i, param) else Listing(s, i, lines)
  {
    hide Named, Join, Listing, Whisper, Tell, SameIgnoringCase;
    DispatchesTo(a, k);
    DispatchesTo(b, k);
  }

  lemma DispatchesTo(a: string, k: nat)
    requires k < |ALIASES| && a in ALIASES[k]
    ensures Named(a, JOIN_NAMES) <==> k == 0
    ensures Named(a, HELP_NAMES) <==> k == 1
    ensures Named(a, FINGER_NAMES) <==> k == 2
    ensures Named(a, WHISPER_NAMES) <==> k == 3
    ensures Named(a, WHO_NAMES) <==> k == 4
    ensures Named(a, ROOMS_NAMES) <==> k == 5
  {
    hide Named;
    SpellsOnly(a, k, 0);
    SpellsOnly(a, k, 1);
    SpellsOnly(a, k, 2);
    SpellsOnly(a, k, 3);
    SpellsOnly(a, k, 4);
    SpellsOnly(a, k, 5);
  }

  /** Any other name is answered with an error. */
  lemma OtherNamesAreUnknown(s: State, i: nat, a: string, param: string, lines: seq<Notice>)
    requires forall k :: 0 <= k < |ALIASES| ==> !Named(a, ALIASES[k])
    ensures Command(s, i, a, param, lines) == Tell(s, i, Error, UnknownCommandText())
  {
    hide Named, Join, Listing, Whisper, Tell;
    assert !Named(a, ALIASES[0]) && !Named(a, ALIASES[1]) && !Named(a, ALIASES[2]);
    assert !Named(a, ALIASES[3]) && !Named(a, ALIASES[4]) && !Named(a, ALIASES[5]);
  }
}
