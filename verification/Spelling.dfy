/** What the comparison of names without regard to capitals does to the letters, and which rooms and
    commands that makes out. */
module Spelling {
  import opened Types

  /** Two strings are the same to strcasecmp exactly when they have one length and, at each place,
      the same character or the capital and the small form of a letter, 32 codes apart. */
  lemma SameIgnoringCaseIs(a: string, b: string)
    ensures SameIgnoringCase(a, b) <==>
              && |a| == |b|
              && forall k :: 0 <= k < |a| ==>
                   || a[k] == b[k]
                   || ('A' <= a[k] <= 'Z' && b[k] as int == a[k] as int + 32)
                   || ('A' <= b[k] <= 'Z' && a[k] as int == b[k] as int + 32)
  {
    if |a| == |b| {
      forall k | 0 <= k < |a|
        ensures Lower(a[k]) == Lower(b[k]) <==>
                  || a[k] == b[k]
                  || ('A' <= a[k] <= 'Z' && b[k] as int == a[k] as int + 32)
                  || ('A' <= b[k] <= 'Z' && a[k] as int == b[k] as int + 32)
      {
        LowerIs(a[k], b[k]);
      }
    }
  }

  lemma LowerIs(x: char, y: char)
    ensures Lower(x) == Lower(y) <==>
              || x == y
              || ('A' <= x <= 'Z' && y as int == x as int + 32)
              || ('A' <= y <= 'Z' && x as int == y as int + 32)
  {
  }

  /** Every letter is that of the one or the other word. */
  predicate Spells(a: string, small: string, capital: string)
    requires |small| == |capital|
  {
    |a| == |small| && forall k :: 0 <= k < |a| ==> a[k] == small[k] || a[k] == capital[k]
  }

  /** One word in its two forms. */
  predicate TwoForms(small: string, capital: string) {
    && |small| == |capital|
    && forall k :: 0 <= k < |small| ==>
         || ('A' <= capital[k] <= 'Z' && small[k] as int == capital[k] as int + 32)
         || (small[k] == capital[k] && !('A' <= small[k] <= 'Z') && !('a' <= small[k] <= 'z'))
  }

  lemma SpellingsOfAWord(a: string, small: string, capital: string)
    requires TwoForms(small, capital)
    ensures SameIgnoringCase(a, small) <==> Spells(a, small, capital)
  {
    hide SameIgnoringCase;
    SameIgnoringCaseIs(a, small);
  }

  /** The restricted room, in each of its 512 spellings and in no other. */
  predicate Backstage(room: string) {
    Spells(room, "backstage", "BACKSTAGE")
  }

  lemma BackstageInAnyCapitals(room: string)
    ensures SameIgnoringCase(room, "backstage") <==> Backstage(room)
  {
    SpellingsOfAWord(room, "backstage", "BACKSTAGE");
  }
}
