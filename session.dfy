/** The chat session of app/main.py: startup indexing (lines 82-97) and one pass of the
    interaction loop (lines 113-193) as a step over the session state. The language model, speech
    recognition, retrieval and the upload sandbox are outside the model: their results are
    parameters of the step. */
module Session {
  import opened Wrappers
  import opened Text
  import opened Chunker
  import opened Corpus
  import opened Actions
  import opened Prompt

  /** `MAX_MEMORY_TURNS`. */
  const MaxMemoryTurns := 10

  /** The chunk/metadata loop of the startup code: every chunk of a document gets a copy of that
      document's `{source, updated_at}` dictionary. */
  method AssembleStartupChunks(docs: seq<Document>, timestamp: int) returns (chunks: seq<string>, metadatas: seq<Metadata>)
    ensures chunks == AllChunks(docs)
    ensures metadatas == AllMetas(docs, StartupTags(timestamp))
  {
    chunks, metadatas := [], [];
    var i := 0;
    while i < |docs|
      invariant 0 <= i <= |docs|
      invariant chunks == AllChunks(docs[..i])
      invariant metadatas == AllMetas(docs[..i], StartupTags(timestamp))
    {
      var doc := docs[i];
      var meta := Metadata(doc.source, None, Some(timestamp), None);
      var cs := ChunkText(doc.text, DefaultChunkSize, DefaultChunkOverlap);
      assert docs[..i + 1][..i] == docs[..i];
      chunks := chunks + cs;
      var copies := seq(|cs|, _ => meta);
      assert copies == TagAll(StartupTags(timestamp), doc, cs);
      metadatas := metadatas + copies;
      i := i + 1;
    }
    assert docs[..|docs|] == docs;
  }

  /** The startup index over the loaded PDF and image documents: `None` when there are none,
      otherwise the index over all their chunks stamped with the start time, or the exception of
      `create_faiss_index`. */
  method StartupIndex(docs: seq<Document>, timestamp: int, embed: string -> Option<Vector>) returns (r: Result<Option<Index>, Error>)
    ensures docs == [] ==> r == Success(None)
    ensures docs != [] ==>
      var chunks := AllChunks(docs);
      match CreateIndex(EmbedTexts(chunks, embed), chunks, AllMetas(docs, StartupTags(timestamp)))
      case Failure(e) => r == Failure(e)
      case Success(index) => r == Success(Some(index))
  {
    if docs == [] {
      return Success(None);
    }
    var chunks, metadatas := AssembleStartupChunks(docs, timestamp);
    var index := CreateIndex(EmbedTexts(chunks, embed), chunks, metadatas);
    if index.Failure? {
      return Failure(index.error);
    }
    r := Success(Some(index.value));
  }

  /** Each startup chunk's metadata is exactly the source of the document that produced it (the
      `k`-th chunk of document `j` sits after the chunks of the documents before `j`) and the
      start time. */
  lemma StartupMetadata(docs: seq<Document>, timestamp: int, p: nat)
    requires p < |AllChunks(docs)|
    ensures p < |AllMetas(docs, StartupTags(timestamp))|
    ensures exists j, k ::
              && 0 <= j < |docs| && 0 <= k < |DocChunks(docs[j])| && p == |AllChunks(docs[..j])| + k
              && AllChunks(docs)[p] == DocChunks(docs[j])[k]
              && AllMetas(docs, StartupTags(timestamp))[p] == Metadata(docs[j].source, None, Some(timestamp), None)
  {
    var t := StartupTags(timestamp);
    SameLengths(docs, t);
    var j, k := GatherOrigin(docs, DocChunks, MetasOf(t), p);
    assert AllMetas(docs, t)[p] == DocMetas(t, docs[j])[k];
  }

  /** The input of one pass: the stripped line, or for an empty line the transcript of the voice
      recording (unstripped), together with whether it came by voice. `None` when the transcript
      is missing or shorter than two characters once stripped: the pass is skipped. */
  function EffectiveInput(rawLine: string, transcript: Option<string>): Option<(string, bool)> {
    var line := Strip(rawLine);
    if line != [] then Some((line, false))
    else if transcript.None? || |Strip(transcript.value)| < 2 then None
    else Some((transcript.value, true))
  }

  datatype Command = Exit | ToggleVoice | ShowHistory | ClearUploads | Upload | Chat

  /** The command of one pass, `None` when it is skipped. */
  function CommandOf(rawLine: string, transcript: Option<string>): Option<Command> {
    match EffectiveInput(rawLine, transcript)
    case None => None
    case Some((input, _)) => Some(Classify(input))
  }

  /** Command dispatch: the four command words match case-insensitively and exactly, `/upload`
      is a case-sensitive prefix; anything else is a chat message. */
  function Classify(input: string): Command {
    var lowered := Lower(input);
    if lowered == "exit" then Exit
    else if lowered == "/voice" then ToggleVoice
    else if lowered == "/history" then ShowHistory
    else if lowered == "/clear" then ClearUploads
    else if StartsWith(input, "/upload") then Upload
    else Chat
  }

  /** Outside the `/upload` prefix, the command depends only on the lower-cased input. */
  lemma ClassifyIgnoresCase(s: string, t: string)
    requires Lower(s) == Lower(t)
    requires !StartsWith(s, "/upload") && !StartsWith(t, "/upload")
    ensures Classify(s) == Classify(t)
  {
  }

  /** Each command is recognised exactly by its own test: a command word on the lower-cased
      input, the `/upload` prefix on the input as typed. */
  lemma ClassifyWords(s: string)
    ensures Classify(s) == Exit <==> Lower(s) == "exit"
    ensures Classify(s) == ToggleVoice <==> Lower(s) == "/voice"
    ensures Classify(s) == ShowHistory <==> Lower(s) == "/history"
    ensures Classify(s) == ClearUploads <==> Lower(s) == "/clear"
    ensures Classify(s) == Upload <==> Lower(s) !in ["exit", "/voice", "/history", "/clear"] && StartsWith(s, "/upload")
  {
  }

  /** The command words match whatever their case. */
  lemma ClassifyExamples()
    ensures Classify("EXIT") == Exit && Classify("/Voice") == ToggleVoice && Classify("/HISTORY") == ShowHistory
  {
    assert Lower("EXIT") == "exit";
    assert Lower("/Voice") == "/voice";
    assert Lower("/HISTORY") == "/history";
  }

  /** A command word followed by more text is a chat message. */
  lemma ClassifyExactWord()
    ensures Classify("/clear now") == Chat
  {
    var cl := "/clear now";
    assert |Lower(cl)| == 10;
    assert !StartsWith(cl, "/upload") by { assert cl[1] == 'c'; }
  }

  /** `/upload` is a case-sensitive prefix. */
  lemma ClassifyUploadPrefix()
    ensures Classify("/upload a.pdf") == Upload && Classify("/UPLOAD a.pdf") == Chat
  {
    var up := "/UPLOAD a.pdf";
    assert up[1] == 'U';
    assert !StartsWith(up, "/upload");
    assert |Lower(up)| == 13;
    assert "/upload a.pdf"[..7] == "/upload";
    assert |Lower("/upload a.pdf")| == 13;
  }

  /** The history after an answered turn: the new turn appended, the oldest one dropped once the
      list is longer than `MAX_MEMORY_TURNS`. */
  function Remember(h: seq<Turn>, t: Turn): (r: seq<Turn>)
    requires |h| <= MaxMemoryTurns
    ensures |r| == if |h| < MaxMemoryTurns then |h| + 1 else MaxMemoryTurns
    ensures r == (h + [t])[|h| + 1 - |r|..]
    ensures r[|r| - 1] == t
  {
    var appended := h + [t];
    if |appended| > MaxMemoryTurns then appended[1..] else appended
  }

  /** The next prompt's history ends with the turn just answered, shown as the last block. */
  lemma RememberedTurnShownNext(h: seq<Turn>, t: Turn)
    requires |h| <= MaxMemoryTurns
    ensures var h' := Remember(h, t);
      EndsWith(HistoryText(h'), TurnBlock(|Prompt.Recent(h')|, t))
  {
    var h' := Remember(h, t);
    LatestTurnLast(h');
  }

  /** The `"SUCCESS" in action_result` test as written. */
  predicate ReportsSuccessAsWritten(reply: string) {
    Contains(reply, "SUCCESS")
  }

  /** The test the session uses: the reply starts with the status word of a booking. */
  predicate ReportsSuccess(reply: string) {
    StartsWith(reply, "SUCCESS")
  }

  /** One `schedule_meeting` call requested by the model: name, email and `str(phone)`. */
  datatype Booking = Booking(name: string, email: string, phone: string)

  /** `reply` is one of the three answers `schedule_meeting` gives for `call`. */
  predicate RepliesTo(call: Booking, reply: string) {
    reply == SuccessMessage(call.name) || reply == AlreadyExistsMessage(call.name) || reply == ErrorMessage
  }

  /** Tool calls run one after the other, each on the file the earlier ones left: the replies in
      call order and the final file. */
  function Replay(content: Stored, calls: seq<Booking>, step: (Stored, Booking) -> (string, Stored)): (r: (seq<string>, Stored))
    ensures |r.0| == |calls|
  {
    if calls == [] then ([], content)
    else
      var front := Replay(content, calls[..|calls| - 1], step);
      var last := step(front.1, calls[|calls| - 1]);
      (front.0 + [last.0], last.1)
  }

  /** One `schedule_meeting` call of a pass. */
  function ScheduleCall(now: int, canWrite: bool): (Stored, Booking) -> (string, Stored) {
    (content, call: Booking) => Schedule(content, call.name, call.email, call.phone, now, canWrite)
  }

  /** The replies of a pass's tool calls and the meetings file after them. */
  function Bookings(content: Stored, calls: seq<Booking>, now: int, canWrite: bool): (seq<string>, Stored) {
    Replay(content, calls, ScheduleCall(now, canWrite))
  }

  lemma ReplayPrefix(content: Stored, calls: seq<Booking>, i: nat, step: (Stored, Booking) -> (string, Stored))
    requires i < |calls|
    ensures var front := Replay(content, calls[..i], step);
      var last := step(front.1, calls[i]);
      Replay(content, calls[..i + 1], step) == (front.0 + [last.0], last.1)
  {
    assert calls[..i + 1][..i] == calls[..i];
  }

  /** Some reply of the pass reports a booking. */
  predicate AnySuccess(replies: seq<string>) {
    exists i :: 0 <= i < |replies| && ReportsSuccess(replies[i])
  }

  /** As written, a duplicate rejection for a person whose name contains "SUCCESS" is taken for a
      booking. */
  lemma AsWrittenFlagsDuplicate()
    ensures ReportsSuccessAsWritten(AlreadyExistsMessage("SUCCESS"))
    ensures !ReportsSuccess(AlreadyExistsMessage("SUCCESS"))
  {
    NameInReply("ALREADY_EXISTS", ": A meeting for ", "SUCCESS", " is already recorded.");
    ReplyPrefixes("SUCCESS");
  }

  /** A reply mentions the name it is about. */
  lemma NameInReply(status: string, lead: string, name: string, trail: string)
    ensures Contains(status + (lead + name + trail), name)
  {
    var m := status + (lead + name + trail);
    var at := |status + lead|;
    assert m[at..][..|name|] == name;
  }

  /** With the corrected test, exactly the booking replies set the flag. */
  lemma ReportsSuccessIffBooked(name: string)
    ensures ReportsSuccess(SuccessMessage(name))
    ensures !ReportsSuccess(AlreadyExistsMessage(name))
    ensures !ReportsSuccess(ErrorMessage)
  {
    ReplyPrefixes(name);
  }

  /** What one pass of the loop does, as seen from outside. */
  datatype Outcome =
    | Skipped                                   // voice transcript too short
    | Exited
    | Toggled
    | HistoryShown(turns: seq<Turn>)
    | Cleared
    | Uploaded
    | Answered(prompt: string, replies: seq<string>, answer: string, spoken: bool)

  /** What an answered chat message does, from the state before (`history`, `flag`, `voice`) to
      the state after (`history'`, `flag'`): the prompt shows the state before the turn, the reply
      is spoken when the message came by voice or voice output is on, the turn is remembered, and
      the meeting flag rises exactly when it was up or a tool reply reports a booking. */
  predicate ChatTurn(o: Outcome, input: string, byVoice: bool, rules: string, context: string, calls: seq<Booking>,
                     answer: string, history: seq<Turn>, flag: bool, voice: bool, history': seq<Turn>, flag': bool)
  {
    && o.Answered? && o.answer == answer && |o.replies| == |calls|
    && o.prompt == Assemble(rules, flag, NoProfile, HistoryText(history), context, input)
    && o.spoken == (byVoice || voice)
    && |history| <= MaxMemoryTurns && history' == Remember(history, Turn(input, answer))
    && (flag' <==> flag || AnySuccess(o.replies))
  }

  lemma AnySuccessSnoc(replies: seq<string>, reply: string)
    ensures AnySuccess(replies + [reply]) <==> AnySuccess(replies) || ReportsSuccess(reply)
  {
    var all := replies + [reply];
    assert all[|replies|] == reply;
    assert forall i :: 0 <= i < |replies| ==> all[i] == replies[i];
  }

  /** A step that answers each call with one of its three replies. */
  ghost predicate AnswersEach(step: (Stored, Booking) -> (string, Stored)) {
    forall content, call :: RepliesTo(call, step(content, call).0)
  }

  /** A step that rewrites the file only with a booking reply. */
  ghost predicate WritesOnBooking(step: (Stored, Booking) -> (string, Stored)) {
    forall content, call :: step(content, call).1 != content ==> ReportsSuccess(step(content, call).0)
  }

  lemma ScheduleCallHonest(now: int, canWrite: bool)
    ensures AnswersEach(ScheduleCall(now, canWrite)) && WritesOnBooking(ScheduleCall(now, canWrite))
  {
    forall content, call: Booking
      ensures var r := ScheduleCall(now, canWrite)(content, call); RepliesTo(call, r.0) && (r.1 != content ==> ReportsSuccess(r.0))
    {
      ReplyPrefixes(call.name);
    }
  }

  /** Each reply of a pass is one of the three answers for its call. */
  lemma {:induction false} ReplayReplies(content: Stored, calls: seq<Booking>, step: (Stored, Booking) -> (string, Stored))
    requires AnswersEach(step)
    ensures forall i :: 0 <= i < |calls| ==> RepliesTo(calls[i], Replay(content, calls, step).0[i])
  {
    if calls != [] {
      var n := |calls|;
      var front := calls[..n - 1];
      ReplayReplies(content, front, step);
      ReplayPrefix(content, calls, n - 1, step);
      assert calls[..n] == calls;
      var r := Replay(content, front, step);
      RepliesSnoc(front, r.0, calls[n - 1], step(r.1, calls[n - 1]).0);
    }
  }

  /** The meetings file changes in a pass only when some reply reports a booking. */
  lemma {:induction false} ReplayWritesOnBooking(content: Stored, calls: seq<Booking>, step: (Stored, Booking) -> (string, Stored))
    requires WritesOnBooking(step)
    ensures Replay(content, calls, step).1 != content ==> AnySuccess(Replay(content, calls, step).0)
  {
    if calls != [] {
      var n := |calls|;
      var front := calls[..n - 1];
      ReplayWritesOnBooking(content, front, step);
      ReplayPrefix(content, calls, n - 1, step);
      assert calls[..n] == calls;
      var r := Replay(content, front, step);
      AnySuccessSnoc(r.0, step(r.1, calls[n - 1]).0);
    }
  }

  lemma RepliesSnoc(calls: seq<Booking>, replies: seq<string>, call: Booking, reply: string)
    requires |replies| == |calls| && forall i :: 0 <= i < |calls| ==> RepliesTo(calls[i], replies[i])
    requires RepliesTo(call, reply)
    ensures forall i :: 0 <= i <= |calls| ==> RepliesTo((calls + [call])[i], (replies + [reply])[i])
  {
    forall i | 0 <= i <= |calls| ensures RepliesTo((calls + [call])[i], (replies + [reply])[i]) {
      if i < |calls| {
        assert (calls + [call])[i] == calls[i] && (replies + [reply])[i] == replies[i];
      }
    }
  }

  class ChatSession {
    var history: seq<Turn>
    var voiceOutput: bool
    var tempIndex: Option<Index>
    var meetingScheduled: bool
    const index: Option<Index>
    const store: MeetingStore

    predicate Valid()
      reads this
    {
      |history| <= MaxMemoryTurns
    }

    constructor (index: Option<Index>, store: MeetingStore)
      ensures Valid()
      ensures this.index == index && this.store == store
      ensures history == [] && !voiceOutput && tempIndex == None && !meetingScheduled
    {
      this.index := index;
      this.store := store;
      history := [];
      voiceOutput := false;
      tempIndex := None;
      meetingScheduled := false;
    }

    /** The tool-call loop: one `schedule_meeting` per call, in order; the flag is raised by a
        booking reply and never lowered. */
    method RunTools(calls: seq<Booking>, now: int, canWrite: bool) returns (replies: seq<string>)
      modifies this, store
      ensures |replies| == |calls|
      ensures forall i :: 0 <= i < |calls| ==> RepliesTo(calls[i], replies[i])
      ensures meetingScheduled <==> old(meetingScheduled) || AnySuccess(replies)
      ensures history == old(history) && voiceOutput == old(voiceOutput) && tempIndex == old(tempIndex)
      ensures (replies, store.content) == Bookings(old(store.content), calls, now, canWrite)
    {
      ghost var initial := store.content;
      replies := [];
      var i := 0;
      while i < |calls|
        invariant 0 <= i <= |calls|
        invariant meetingScheduled <==> old(meetingScheduled) || AnySuccess(replies)
        invariant history == old(history) && voiceOutput == old(voiceOutput) && tempIndex == old(tempIndex)
        invariant replies == Bookings(initial, calls[..i], now, canWrite).0
        invariant store.content == Bookings(initial, calls[..i], now, canWrite).1
      {
        var call := calls[i];
        var reply := store.ScheduleMeeting(call.name, call.email, call.phone, now, canWrite);
        if ReportsSuccess(reply) {
          meetingScheduled := true;
        }
        AnySuccessSnoc(replies, reply);
        ReplayPrefix(initial, calls, i, ScheduleCall(now, canWrite));
        replies := replies + [reply];
        i := i + 1;
      }
      assert calls[..|calls|] == calls;
      ScheduleCallHonest(now, canWrite);
      ReplayReplies(initial, calls, ScheduleCall(now, canWrite));
      ReplayWritesOnBooking(initial, calls, ScheduleCall(now, canWrite));
    }

    /** A chat message: the prompt from the state before the turn, the tool calls, and the turn
        remembered with its answer. */
    method Answer(input: string, byVoice: bool, rules: string, context: string, calls: seq<Booking>,
                  answer: string, now: int, canWrite: bool) returns (o: Outcome)
      requires Valid()
      modifies this, store
      ensures Valid()
      ensures ChatTurn(o, input, byVoice, rules, context, calls, answer, old(history), old(meetingScheduled), old(voiceOutput), history, meetingScheduled)
      ensures voiceOutput == old(voiceOutput) && tempIndex == old(tempIndex)
      ensures o.Answered? && (o.replies, store.content) == Bookings(old(store.content), calls, now, canWrite)
    {
      var prompt := BuildPrompt(context, input, history, None, meetingScheduled, rules);
      var replies := RunTools(calls, now, canWrite);
      var spoken := byVoice || voiceOutput;
      history := history + [Turn(input, answer)];
      if |history| > MaxMemoryTurns {
        history := history[1..];
      }
      o := Answered(prompt, replies, answer, spoken);
    }

    /** One pass of the loop. `transcript` is what speech recognition returns for an empty line,
        `uploadOutcome` what `save_uploaded_files` + `build_temp_index` yield for an `/upload`
        line (a failure is an exception the loop catches), `context` the retrieved text,
        `calls` the model's tool calls and `answer` its final text; `now` and `canWrite` go to
        `schedule_meeting`. Only a chat message touches the history, the meetings file and the
        meeting flag; only `/voice` the voice switch; only `/clear` and `/upload` the uploads. */
    method Step(rawLine: string, transcript: Option<string>, uploadOutcome: Result<Option<Index>, Error>,
                rules: string, context: string, calls: seq<Booking>, answer: string, now: int, canWrite: bool)
      returns (o: Outcome)
      requires Valid()
      modifies this, store
      ensures Valid()
      ensures old(meetingScheduled) ==> meetingScheduled
      ensures CommandOf(rawLine, transcript) == None ==> o == Skipped
      ensures CommandOf(rawLine, transcript) == Some(Exit) ==> o == Exited
      ensures CommandOf(rawLine, transcript) == Some(ToggleVoice) ==> o == Toggled && voiceOutput == !old(voiceOutput)
      ensures CommandOf(rawLine, transcript) != Some(ToggleVoice) ==> voiceOutput == old(voiceOutput)
      ensures CommandOf(rawLine, transcript) == Some(ShowHistory) ==> o == HistoryShown(old(history))
      ensures CommandOf(rawLine, transcript) == Some(ClearUploads) ==> o == Cleared && tempIndex == None
      ensures CommandOf(rawLine, transcript) == Some(Upload) ==>
        o == Uploaded && tempIndex == (if uploadOutcome.Success? then uploadOutcome.value else old(tempIndex))
      ensures CommandOf(rawLine, transcript) !in {Some(ClearUploads), Some(Upload)} ==> tempIndex == old(tempIndex)
      ensures CommandOf(rawLine, transcript) != Some(Chat) ==>
        history == old(history) && meetingScheduled == old(meetingScheduled) && store.content == old(store.content)
      ensures CommandOf(rawLine, transcript) == Some(Chat) ==>
        var (input, byVoice) := EffectiveInput(rawLine, transcript).value;
        ChatTurn(o, input, byVoice, rules, context, calls, answer, old(history), old(meetingScheduled), old(voiceOutput), history, meetingScheduled)
      ensures CommandOf(rawLine, transcript) == Some(Chat) ==>
        o.Answered? && (o.replies, store.content) == Bookings(old(store.content), calls, now, canWrite)
    {
      var e := EffectiveInput(rawLine, transcript);
      if e.None? {
        return Skipped;
      }
      var (input, byVoice) := e.value;
      o := Dispatch(Classify(input), input, byVoice, uploadOutcome, rules, context, calls, answer, now, canWrite);
    }

    /** The `if`/`elif` chain on the command of a pass that is not skipped. */
    method Dispatch(command: Command, input: string, byVoice: bool, uploadOutcome: Result<Option<Index>, Error>,
                    rules: string, context: string, calls: seq<Booking>, answer: string, now: int, canWrite: bool)
      returns (o: Outcome)
      requires Valid()
      modifies this, store
      ensures Valid()
      ensures old(meetingScheduled) ==> meetingScheduled
      ensures command == Exit ==> o == Exited
      ensures command == ToggleVoice ==> o == Toggled && voiceOutput == !old(voiceOutput)
      ensures command != ToggleVoice ==> voiceOutput == old(voiceOutput)
      ensures command == ShowHistory ==> o == HistoryShown(old(history))
      ensures command == ClearUploads ==> o == Cleared && tempIndex == None
      ensures command == Upload ==> o == Uploaded && tempIndex == (if uploadOutcome.Success? then uploadOutcome.value else old(tempIndex))
      ensures command != ClearUploads && command != Upload ==> tempIndex == old(tempIndex)
      ensures command != Chat ==>
        history == old(history) && meetingScheduled == old(meetingScheduled) && store.content == old(store.content)
      ensures command == Chat ==>
        ChatTurn(o, input, byVoice, rules, context, calls, answer, old(history), old(meetingScheduled), old(voiceOutput), history, meetingScheduled)
      ensures command == Chat ==>
        o.Answered? && (o.replies, store.content) == Bookings(old(store.content), calls, now, canWrite)
    {
      if command == Exit {
        o := Exited;
      } else if command == ToggleVoice {
        voiceOutput := !voiceOutput;
        o := Toggled;
      } else if command == ShowHistory {
        o := HistoryShown(history);
      } else if command == ClearUploads {
        tempIndex := None;
        o := Cleared;
      } else if command == Upload {
        if uploadOutcome.Success? {
          tempIndex := uploadOutcome.value;
        }
        o := Uploaded;
      } else {
        o := Answer(input, byVoice, rules, context, calls, answer, now, canWrite);
      }
    }
  }
}
