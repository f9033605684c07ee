/** From what is typed to what is done: how a command line is split, which words are which command,
    and what the server makes of the packet that carries it. */
module CommandLines {
  import opened Types
  import opened Messages
  import opened ServerSpec
  import opened Invariants
  import Answers
  import Codec
  import Commands
  import Handshake
  import Spelling
  import Stepping

  // ---- the split ----

  /** The word ends at the first space; all that follows that space is the parameter. */
  lemma SplitsAtTheFirstSpace(s: State, i: nat, a: string, p: string, lines: seq<Notice>)
    requires ' ' !in a
    ensures Message(s, i, "/" + a + " " + p, lines) == Command(s, i, a, p, lines)
    ensures Message(s, i, "/" + a, lines) == Command(s, i, a, "", lines)
  {
    hide Command, Say;
    var line := a + " " + p;
    assert ("/" + a + " " + p)[1..] == line && ("/" + a)[1..] == a;
    assert forall j :: 0 <= j < |a| ==> line[j] == a[j];
    IndexOfCharIs(line, ' ', |a|);
    IndexOfCharIs(a, ' ', |a|);
    assert line[..|a|] == a && line[|a| + 1..] == p && a[..|a|] == a;
  }

  // ---- the words ----

  type Word = w: (string, string) | Spelling.TwoForms(w.0, w.1) witness ("", "")

  /** a is one of the words, each of its letters small or capital. */
  predicate Says(a: string, words: seq<Word>) {
    exists k :: 0 <= k < |words| && Spelling.Spells(a, words[k].0, words[k].1)
  }

  const JOIN: seq<Word> := [("join", "JOIN"), ("channel", "CHANNEL")]
  const HELP: seq<Word> := [("help", "HELP"), ("h", "H"), ("?", "?")]
  const FINGER: seq<Word> := [("finger", "FINGER"), ("whois", "WHOIS"), ("whereis", "WHEREIS")]
  const WHISPER: seq<Word> := [("w", "W"), ("whisper", "WHISPER"), ("m", "M"), ("msg", "MSG")]
  const WHO: seq<Word> := [("who", "WHO"), ("list", "LIST")]
  const ROOMS: seq<Word> := [("rooms", "ROOMS"), ("channels", "CHANNELS")]
  const WORDS: seq<seq<Word>> := [JOIN, HELP, FINGER, WHISPER, WHO, ROOMS]

  lemma WordsAreNames(k: nat)
    requires k < 6
    ensures |WORDS[k]| == |Commands.ALIASES[k]|
    ensures forall n :: 0 <= n < |WORDS[k]| ==> WORDS[k][n].0 == Commands.ALIASES[k][n]
  {
  }

  lemma SaysIsNamed(a: string, k: nat)
    requires k < 6
    ensures Says(a, WORDS[k]) <==> Named(a, Commands.ALIASES[k])
    ensures Says(a, WORDS[k]) ==>
              exists n :: 0 <= n < |Commands.ALIASES[k]| && SameIgnoringCase(a, Commands.ALIASES[k][n])
  {
    hide SameIgnoringCase, Spelling.Spells, Spelling.TwoForms;
    WordsAreNames(k);
    forall n | 0 <= n < |WORDS[k]|
      ensures Spelling.Spells(a, WORDS[k][n].0, WORDS[k][n].1) <==> SameIgnoringCase(a, Commands.ALIASES[k][n])
    {
      Spelling.SpellingsOfAWord(a, WORDS[k][n].0, WORDS[k][n].1);
    }
  }

  /** No word has a space in it, and all are short. */
  lemma WordsAreWords(a: string, k: nat)
    requires k < 6 && Says(a, WORDS[k])
    ensures ' ' !in a && Clean(a) && |a| <= 8
  {
    var n :| 0 <= n < |WORDS[k]| && Spelling.Spells(a, WORDS[k][n].0, WORDS[k][n].1);
    LettersOnly(k, n);
    forall j | 0 <= j < |a|
      ensures a[j] != ' ' && Visible(a[j])
    {
      assert a[j] == WORDS[k][n].0[j] || a[j] == WORDS[k][n].1[j];
    }
  }

  lemma LettersOnly(k: nat, n: nat)
    requires k < 6 && n < |WORDS[k]|
    ensures |WORDS[k][n].0| <= 8
    ensures forall j :: 0 <= j < |WORDS[k][n].0| ==> WORDS[k][n].0[j] > ' ' && Visible(WORDS[k][n].0[j])
    ensures forall j :: 0 <= j < |WORDS[k][n].1| ==> WORDS[k][n].1[j] > ' ' && Visible(WORDS[k][n].1[j])
  {
  }

  /** What the words of group k do. */
  function Done(s: State, i: nat, k: nat, param: string, lines: seq<Notice>): State {
    if k == 0 then Join(s, i, param) else if k == 3 then Whisper(s, i, param) else Listing(s, i, lines)
  }

  lemma AWordIsItsCommand(s: State, i: nat, k: nat, a: string, p: string, lines: seq<Notice>)
    requires k < 6 && Says(a, WORDS[k])
    ensures Command(s, i, a, p, lines) == Done(s, i, k, p, lines)
  {
    hide Command, Join, Whisper, Listing, Says, SameIgnoringCase;
    SaysIsNamed(a, k);
    var n :| 0 <= n < |Commands.ALIASES[k]| && SameIgnoringCase(a, Commands.ALIASES[k][n]);
    var name := Commands.ALIASES[k][n];
    Commands.CapitalsDoNotMatter(s, i, a, name, p, lines);
    Commands.AliasesAreAsDocumented(s, i, name, name, k, p, lines);
  }

  // ---- the packet ----

  function Sent(i: nat, text: string, lines: seq<Notice>): Event
    requires RequestOk(ChatCommand(text))
  {
    Poll(i, Handshake.RequestReading(ChatCommand(text)), lines)
  }

  ghost predicate Online(s: State, i: nat) {
    Inv(s) && !s.crashed && i < |s.users| && s.users[i].open && IsOld(s.users[i])
  }

  lemma WhatIsSentArrives(s: State, i: nat, text: string, lines: seq<Notice>)
    requires Online(s, i) && RequestOk(ChatCommand(text))
    ensures Step(s, Sent(i, text, lines)) == Message(s, i, Codec.Seen(text), lines)
  {
    hide InvExcept, RequestWire, Message, Codec.Seen, ParseText;
    Stepping.CollectionsMatchStates(s, i);
    ServerReadsWhatTheClientWrote(ChatCommand(text));
  }

  lemma SeenInParts(a: string, b: string)
    requires CString(a) && CString(b)
    ensures CString(a + b) && Codec.Seen(a + b) == Codec.Seen(a) + Codec.Seen(b)
  {
  }

  lemma SeenLine(a: string, p: string)
    requires Clean(a) && CString(p)
    ensures CString(p) && CString("/" + a + " " + p) && Codec.Seen("/" + a + " " + p) == "/" + a + " " + Codec.Seen(p)
    ensures Clean("/" + a) && CString("/" + a) && Codec.Seen("/" + a) == "/" + a
  {
    hide Codec.Seen;
    assert Clean("/" + a) && Clean("/" + a + " ");
    Codec.CleanIsCString("/" + a);
    Codec.CleanIsCString("/" + a + " ");
    SeenInParts("/" + a + " ", p);
  }

  /** A typed command, in any capitals, is carried out with everything after the first space as its
      parameter, filtered; without a space the parameter is empty. */
  lemma ATypedCommandIsDone(s: State, i: nat, k: nat, a: string, p: string, lines: seq<Notice>)
    requires Online(s, i) && k < 6 && Says(a, WORDS[k]) && RequestOk(ChatCommand("/" + a + " " + p))
    ensures var line := "/" + a + " " + p;
            && CString(p) && RequestOk(ChatCommand("/" + a))
            && Step(s, Sent(i, line, lines)) == Done(s, i, k, Codec.Seen(p), lines)
            && Step(s, Sent(i, "/" + a, lines)) == Done(s, i, k, "", lines)
  {
    hide Online, Step, Sent, Done, Says, Codec.Seen, Message, Command;
    var line := "/" + a + " " + p;
    WordsAreWords(a, k);
    assert forall j :: 0 <= j < |p| ==> p[j] == line[|a| + 2 + j];
    SeenLine(a, p);
    WhatIsSentArrives(s, i, line, lines);
    WhatIsSentArrives(s, i, "/" + a, lines);
    SplitsAtTheFirstSpace(s, i, a, Codec.Seen(p), lines);
    AWordIsItsCommand(s, i, k, a, Codec.Seen(p), lines);
    AWordIsItsCommand(s, i, k, a, "", lines);
  }

  /** Any other word earns one error. */
  lemma AnyOtherWordIsUnknown(s: State, i: nat, a: string, p: string, lines: seq<Notice>)
    requires Online(s, i) && ' ' !in a && forall k :: 0 <= k < 6 ==> !Says(a, WORDS[k])
    ensures Message(s, i, "/" + a + " " + p, lines) == Message(s, i, "/" + a, lines) ==
            Answers.Answered(s, i,
              Answers.Refusal(s, i, "Unknown command; type /help for a command listing"))
  {
    hide Message, Command, Says, Named, Inv, Answers.Answered, Tell;
    forall k | 0 <= k < |Commands.ALIASES|
      ensures !Named(a, Commands.ALIASES[k])
    {
      SaysIsNamed(a, k);
    }
    UnknownText();
    SplitsAtTheFirstSpace(s, i, a, p, lines);
    Commands.OtherNamesAreUnknown(s, i, a, p, lines);
    Commands.OtherNamesAreUnknown(s, i, a, "", lines);
    Answers.ToldIsAnswered(s, i, UnknownCommandText());
  }

  lemma UnknownText()
    ensures UnknownCommandText() == "Unknown command; type /help for a command listing"
  {
  }

  /** A text that does not start with a slash is said to the room. */
  lemma ATypedTextIsSaid(s: State, i: nat, text: string, lines: seq<Notice>)
    requires Online(s, i) && RequestOk(ChatCommand(text)) && (text != "" ==> text[0] != '/')
    ensures Step(s, Sent(i, text, lines)) == Say(s, i, Codec.Seen(text))
  {
    hide Online, Step, Sent, Say, Command;
    WhatIsSentArrives(s, i, text, lines);
    if text != "" {
      assert Codec.Seen(text)[0] == Codec.Filter(text[0] as int);
    }
  }
}
