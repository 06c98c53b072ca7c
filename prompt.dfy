/** Prompt assembly, app/rag/prompt.py. The instruction block (`rules`) is a parameter: every
    property below holds whatever its text. */
module Prompt {
  import opened Wrappers
  import opened Text

  /** One remembered exchange: `(user_text, assistant_text)`. */
  datatype Turn = Turn(user: string, assistant: string)

  /** How many of the most recent turns the prompt shows. */
  const HistoryWindow := 5

  const NoHistory: string := "New conversation startup."
  const NoProfile: string := "No profile data available."

  /** `history[-5:]`. */
  function Recent(h: seq<Turn>): (r: seq<Turn>)
    ensures |r| == if |h| <= HistoryWindow then |h| else HistoryWindow
    ensures r == h[|h| - |r|..]
  {
    if |h| <= HistoryWindow then h else h[|h| - HistoryWindow..]
  }

  function TurnBlock(i: nat, t: Turn): string {
    "Turn " + NatToString(i) + ":\nUser: " + t.user + "\nAssistant: " + t.assistant + "\n\n"
  }

  /** The blocks of `ts`, numbered from 1. */
  function Blocks(ts: seq<Turn>): string {
    if ts == [] then [] else Blocks(ts[..|ts| - 1]) + TurnBlock(|ts|, ts[|ts| - 1])
  }

  /** `history_str`. */
  function HistoryText(h: seq<Turn>): string {
    if h == [] then NoHistory else Blocks(Recent(h))
  }

  /** The `history_str += ...` loop over `enumerate(history[-5:], 1)`. */
  method FormatHistory(history: seq<Turn>) returns (s: string)
    ensures s == HistoryText(history)
  {
    if history == [] {
      return NoHistory;
    }
    var recent := if |history| <= HistoryWindow then history else history[|history| - HistoryWindow..];
    s := "";
    var i := 0;
    while i < |recent|
      invariant 0 <= i <= |recent|
      invariant s == Blocks(recent[..i])
    {
      assert recent[..i + 1][..i] == recent[..i];
      s := s + TurnBlock(i + 1, recent[i]);
      i := i + 1;
    }
    assert recent[..|recent|] == recent;
  }

  /** The blocks of a prefix of the turns are a prefix of the blocks. */
  lemma {:induction false} BlocksPrefix(ts: seq<Turn>, m: nat)
    requires m <= |ts|
    ensures StartsWith(Blocks(ts), Blocks(ts[..m]))
    decreases |ts|
  {
    if m == |ts| {
      assert ts[..m] == ts;
    } else {
      var front := ts[..|ts| - 1];
      assert front[..m] == ts[..m];
      BlocksPrefix(front, m);
      assert Blocks(ts) == Blocks(front) + TurnBlock(|ts|, ts[|ts| - 1]);
      assert Blocks(ts)[..|Blocks(ts[..m])|] == Blocks(front)[..|Blocks(ts[..m])|];
    }
  }

  /** The shown turns appear in their original order, turn `k` of the window numbered `k + 1`:
      the history text starts with the blocks of the turns before it followed by its own block. */
  lemma HistoryTurnOrder(h: seq<Turn>, k: nat)
    requires k < |Recent(h)|
    ensures Recent(h)[k] == h[|h| - |Recent(h)| + k]
    ensures StartsWith(HistoryText(h), Blocks(Recent(h)[..k]) + TurnBlock(k + 1, Recent(h)[k]))
  {
    var r := Recent(h);
    BlocksPrefix(r, k + 1);
    assert r[..k + 1][..k] == r[..k];
  }

  /** The text ends with the latest turn, numbered `min(5, len(history))`. */
  lemma LatestTurnLast(h: seq<Turn>)
    requires h != []
    ensures EndsWith(HistoryText(h), TurnBlock(|Recent(h)|, h[|h| - 1]))
  {
    var r := Recent(h);
    assert r[|r| - 1] == h[|h| - 1];
    var b := TurnBlock(|r|, r[|r| - 1]);
    assert Blocks(r) == Blocks(r[..|r| - 1]) + b;
    assert Blocks(r)[|Blocks(r)| - |b|..] == b;
  }

  /** Turns older than the last five do not change the text. */
  lemma HistoryIgnoresOlderTurns(older: seq<Turn>, recent: seq<Turn>)
    requires |recent| >= HistoryWindow
    ensures HistoryText(older + recent) == HistoryText(recent)
  {
    var h := older + recent;
    var a, b := Recent(h), Recent(recent);
    assert |a| == HistoryWindow && |b| == HistoryWindow;
    forall i | 0 <= i < HistoryWindow ensures a[i] == b[i] {
      assert a[i] == h[|h| - HistoryWindow + i];
      assert b[i] == recent[|recent| - HistoryWindow + i];
    }
    assert a == b;
  }

  /** One `- key: value` line of the profile. */
  function ProfileLine(item: (string, string)): string {
    "- " + item.0 + ": " + item.1
  }

  function ProfileLines(items: seq<(string, string)>): (r: seq<string>)
    ensures |r| == |items|
  {
    seq(|items|, i requires 0 <= i < |items| => ProfileLine(items[i]))
  }

  /** `profile_str`: the profile's items in order, one line each; `None` or `{}` gives the default. */
  function ProfileText(profile: Option<seq<(string, string)>>): string {
    if profile.None? || profile.value == [] then NoProfile else JoinWith("\n", ProfileLines(profile.value))
  }

  /** Keys and values without line breaks: splitting the profile text on newlines gives back
      exactly one line per item. */
  lemma ProfileRoundTrip(items: seq<(string, string)>)
    requires items != []
    requires forall i :: 0 <= i < |items| ==> '\n' !in items[i].0 && '\n' !in items[i].1
    ensures SplitOn('\n', ProfileText(Some(items))) == ProfileLines(items)
  {
    var lines := ProfileLines(items);
    forall i | 0 <= i < |lines| ensures '\n' !in lines[i] {
      var k, v := items[i].0, items[i].1;
      assert lines[i] == "- " + k + ": " + v;
    }
    SplitJoinRoundTrip('\n', lines);
  }

  /** A non-empty profile never renders as the default text: it starts with "- ". */
  lemma ProfileNotDefault(items: seq<(string, string)>)
    requires items != []
    ensures StartsWith(ProfileText(Some(items)), "- ")
    ensures ProfileText(Some(items)) != NoProfile
  {
    var lines := ProfileLines(items);
    var first := lines[0];
    assert first == "- " + (items[0].0 + ": " + items[0].1);
    JoinStartsWithFirst("\n", lines);
    var t := ProfileText(Some(items));
    assert t[..|first|] == first;
    assert t[..2] == first[..2] == "- ";
    assert NoProfile[0] == 'N';
  }

  lemma {:induction false} JoinStartsWithFirst(sep: string, parts: seq<string>)
    requires parts != []
    ensures StartsWith(JoinWith(sep, parts), parts[0])
  {
    if |parts| > 1 {
      assert JoinWith(sep, parts) == parts[0] + (sep + JoinWith(sep, parts[1..]));
    }
  }

  const SessionHeader: string := "\n\n### SESSION STATE\n[Meeting Scheduled]: "
  const ProfileHeader: string := "\n[User Profile]: "
  const HistoryHeader: string := "\n\n### CONVERSATION HISTORY\n"
  const ContextHeader: string := "\n\n### KNOWLEDGE BASE (CONTEXT)\n"
  const InputHeader: string := "\n\n### CURRENT INPUT\nUser: "
  const AssistantCue: string := "\n\nAssistant:\n"

  /** The final f-string: rules, session state, history, knowledge base, current input. */
  function Assemble(rules: string, meetingStatus: bool, profile: string, history: string, context: string, question: string): (r: string)
    ensures StartsWith(r, "\n" + rules + SessionHeader)
    ensures EndsWith(r, InputHeader + question + AssistantCue)
  {
    var head := "\n" + rules + SessionHeader;
    var body := ShowBool(meetingStatus) + (ProfileHeader + profile + HistoryHeader + history + ContextHeader + context);
    var tail := InputHeader + question + AssistantCue;
    assert (head + body + tail)[..|head|] == head;
    assert (head + body + tail)[|head + body|..] == tail;
    head + body + tail
  }

  /** The profile, history and context sit in that order, each right after its header. */
  lemma SectionsInOrder(rules: string, meetingStatus: bool, profile: string, history: string, context: string, question: string)
    ensures var r := Assemble(rules, meetingStatus, profile, history, context, question);
      var p := |"\n" + rules + SessionHeader| + |ShowBool(meetingStatus)| + |ProfileHeader|;
      var h := p + |profile| + |HistoryHeader|;
      var c := h + |history| + |ContextHeader|;
      c + |context| <= |r| && r[p..p + |profile|] == profile && r[h..h + |history|] == history && r[c..c + |context|] == context
  {
    Slots(Assemble(rules, meetingStatus, profile, history, context, question), "\n" + rules + SessionHeader,
          ShowBool(meetingStatus), ProfileHeader, profile, HistoryHeader, history, ContextHeader, context,
          InputHeader + question + AssistantCue);
  }

  lemma Slots(r: string, head: string, flag: string, ph: string, profile: string, hh: string, history: string,
              ch: string, context: string, tail: string)
    requires r == head + (flag + (ph + profile + hh + history + ch + context)) + tail
    ensures var p := |head| + |flag| + |ph|;
      var h := p + |profile| + |hh|;
      var c := h + |history| + |ch|;
      c + |context| <= |r| && r[p..p + |profile|] == profile && r[h..h + |history|] == history && r[c..c + |context|] == context
  {
    var p := |head| + |flag| + |ph|;
    var h := p + |profile| + |hh|;
    var c := h + |history| + |ch|;
    assert r == (head + flag + ph) + profile + (hh + history + ch + context + tail);
    assert r[p..p + |profile|] == profile;
    assert r == (head + flag + ph + profile + hh) + history + (ch + context + tail);
    assert r[h..h + |history|] == history;
    assert r == (head + flag + ph + profile + hh + history + ch) + context + tail;
  }

  /** Reads the meeting flag back from a prompt built with `rules`. */
  function ReadFlag(prompt: string, rules: string): Option<bool> {
    var at := |"\n" + rules + SessionHeader|;
    if at > |prompt| then None
    else if StartsWith(prompt[at..], "True") then Some(true)
    else if StartsWith(prompt[at..], "False") then Some(false)
    else None
  }

  /** The flag is rendered right after the session-state header, and reads back unchanged. */
  lemma FlagRoundTrip(rules: string, meetingStatus: bool, profile: string, history: string, context: string, question: string)
    ensures ReadFlag(Assemble(rules, meetingStatus, profile, history, context, question), rules) == Some(meetingStatus)
  {
    var rest := ProfileHeader + profile + HistoryHeader + history + ContextHeader + context;
    var tail := InputHeader + question + AssistantCue;
    ReadsFlag(Assemble(rules, meetingStatus, profile, history, context, question), rules, meetingStatus, rest, tail);
  }

  lemma ReadsFlag(prompt: string, rules: string, flag: bool, rest: string, tail: string)
    requires prompt == ("\n" + rules + SessionHeader) + (ShowBool(flag) + rest) + tail
    ensures ReadFlag(prompt, rules) == Some(flag)
  {
    var head := "\n" + rules + SessionHeader;
    var shown := ShowBool(flag);
    assert prompt[|head|..] == shown + rest + tail;
    assert (shown + rest + tail)[..|shown|] == shown;
    if !flag {
      assert (shown + rest + tail)[0] == 'F';
      assert "True"[0] == 'T';
    }
  }

  /** `build_prompt(context, question, history, user_profile, meeting_status)`. */
  method BuildPrompt(context: string, question: string, history: seq<Turn>, profile: Option<seq<(string, string)>>,
                     meetingStatus: bool, rules: string) returns (prompt: string)
    ensures prompt == Assemble(rules, meetingStatus, ProfileText(profile), HistoryText(history), context, question)
  {
    var historyText := FormatHistory(history);
    var profileText := ProfileText(profile);
    prompt := Assemble(rules, meetingStatus, profileText, historyText, context, question);
  }
}
