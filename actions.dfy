/** Meeting booking with duplicate suppression, app/rag/actions.py. The JSON file
    `data/meetings.json` is the field of a `MeetingStore`; the clock is the parameter `now`, in
    whole seconds. */
module Actions {
  import opened Wrappers
  import opened Text

  /** Five minutes, in seconds. */
  const DuplicateWindow := 300

  /** One element of the stored list. A field is `None` when the record lacks it or (for the
      timestamp) when it does not parse as `%Y-%m-%d %H:%M:%S`; `NonObject` is a list element that
      is not a JSON object, on which `.get` raises. */
  datatype Entry =
    | NonObject
    | Meeting(name: Option<string>, email: Option<string>, phone: Option<string>, timestamp: Option<int>)

  /** What the meetings file holds. */
  datatype Stored =
    | Absent                      // no file yet
    | Unreadable                  // opening or decoding the bytes raises something other than JSONDecodeError
    | Undecodable                 // json.load raises JSONDecodeError
    | NotAList                    // valid JSON, but not a list
    | Records(entries: seq<Entry>)

  /** The list `meetings` starts from: `None` when reading raises, the empty list for a missing,
      undecodable or non-list file. */
  function Existing(content: Stored): Option<seq<Entry>> {
    match content
    case Unreadable => None
    case Records(es) => Some(es)
    case _ => Some([])
  }

  /** The entry the scan looks at more closely: same email, or same phone text. */
  predicate Matches(e: Entry, email: string, phone: string)
    requires e.Meeting?
  {
    e.email == Some(email) || e.phone == Some(phone)
  }

  /** A match booked less than five minutes before `now` (a timestamp in the future counts too). */
  predicate Recent(e: Entry, email: string, phone: string, now: int) {
    e.Meeting? && Matches(e, email, phone) && e.timestamp.Some? && now - e.timestamp.value < DuplicateWindow
  }

  /** An entry the scan passes over: a record that does not match, or a match booked at least
      five minutes ago. */
  predicate Harmless(e: Entry, email: string, phone: string, now: int) {
    e.Meeting? && (Matches(e, email, phone) ==> e.timestamp.Some? && now - e.timestamp.value >= DuplicateWindow)
  }

  datatype Verdict = Book | Duplicate | Fault

  /** The duplicate scan over the stored list, in order: the first entry that is not harmless
      decides, either as a recent duplicate or as an exception. */
  function Scan(es: seq<Entry>, email: string, phone: string, now: int): Verdict {
    if es == [] then Book
    else if Harmless(es[0], email, phone, now) then Scan(es[1..], email, phone, now)
    else if Recent(es[0], email, phone, now) then Duplicate
    else Fault
  }

  function Decide(content: Stored, email: string, phone: string, now: int): Verdict {
    match Existing(content)
    case None => Fault
    case Some(es) => Scan(es, email, phone, now)
  }

  function SuccessMessage(name: string): string {
    "SUCCESS" + (": Meeting successfully saved for " + name + ".")
  }

  function AlreadyExistsMessage(name: string): string {
    "ALREADY_EXISTS" + (": A meeting for " + name + " is already recorded.")
  }

  const ErrorMessage: string := "ERROR" + ": Internal server error while saving data."

  /** The record a booking appends. */
  function NewEntry(name: string, email: string, phone: string, now: int): Entry {
    Meeting(Some(name), Some(email), Some(phone), Some(now))
  }

  /** The reply of one `schedule_meeting` call and the file it leaves behind. Only a booking
      rewrites the file. */
  function Schedule(content: Stored, name: string, email: string, phone: string, now: int, canWrite: bool): (r: (string, Stored))
    ensures r.1 != content ==> r.0 == SuccessMessage(name)
    ensures r.0 == SuccessMessage(name) || r.0 == AlreadyExistsMessage(name) || r.0 == ErrorMessage
  {
    match Decide(content, email, phone, now)
    case Book =>
      if canWrite then (SuccessMessage(name), Records(Existing(content).value + [NewEntry(name, email, phone, now)]))
      else (ErrorMessage, content)
    case Duplicate => (AlreadyExistsMessage(name), content)
    case Fault => (ErrorMessage, content)
  }

  /** The scan books exactly when every stored entry is harmless. */
  lemma {:induction false} ScanBooksIff(es: seq<Entry>, email: string, phone: string, now: int)
    ensures Scan(es, email, phone, now) == Book <==> forall i :: 0 <= i < |es| ==> Harmless(es[i], email, phone, now)
  {
    if es != [] {
      ScanBooksIff(es[1..], email, phone, now);
      assert forall i :: 1 <= i < |es| ==> es[1..][i - 1] == es[i];
    }
  }

  /** The scan reports a duplicate exactly when some recent match comes before any entry that
      would raise. */
  lemma {:induction false} ScanDuplicateIff(es: seq<Entry>, email: string, phone: string, now: int)
    ensures Scan(es, email, phone, now) == Duplicate <==>
      exists i :: 0 <= i < |es| && Recent(es[i], email, phone, now)
        && forall j :: 0 <= j < i ==> Harmless(es[j], email, phone, now)
  {
    if es != [] {
      var rest := es[1..];
      ScanDuplicateIff(rest, email, phone, now);
      if Scan(es, email, phone, now) == Duplicate && Harmless(es[0], email, phone, now) {
        var i :| 0 <= i < |rest| && Recent(rest[i], email, phone, now)
          && forall j :: 0 <= j < i ==> Harmless(rest[j], email, phone, now);
        assert es[i + 1] == rest[i];
        assert forall j :: 1 <= j < i + 1 ==> es[j] == rest[j - 1];
      }
      if exists i :: 0 <= i < |es| && Recent(es[i], email, phone, now)
           && forall j :: 0 <= j < i ==> Harmless(es[j], email, phone, now) {
        var i :| 0 <= i < |es| && Recent(es[i], email, phone, now)
          && forall j :: 0 <= j < i ==> Harmless(es[j], email, phone, now);
        if i > 0 {
          assert Harmless(es[0], email, phone, now);
          assert rest[i - 1] == es[i];
          assert forall j :: 0 <= j < i - 1 ==> rest[j] == es[j + 1];
        }
      }
    }
  }

  /** Once booked, a repeat with the same email or phone less than five minutes later is a
      duplicate: the earlier entries stay harmless at the later time, and the new entry is a
      recent match. */
  lemma BookedEntryBlocksRepeat(es: seq<Entry>, name: string, email: string, phone: string, now: int, later: int)
    requires Scan(es, email, phone, now) == Book
    requires now <= later < now + DuplicateWindow
    ensures Scan(es + [NewEntry(name, email, phone, now)], email, phone, later) == Duplicate
  {
    var all := es + [NewEntry(name, email, phone, now)];
    ScanBooksIff(es, email, phone, now);
    forall j | 0 <= j < |es| ensures Harmless(all[j], email, phone, later) {
      assert all[j] == es[j];
    }
    assert Recent(all[|es|], email, phone, later);
    ScanDuplicateIff(all, email, phone, later);
  }

  /** The meetings file. */
  class MeetingStore {
    var content: Stored

    constructor (initial: Stored)
      ensures content == initial
    {
      content := initial;
    }

    /** `schedule_meeting(name, email, phone)`: `phone` is already `str(phone)`, `now` the current
        time in whole seconds and `canWrite` whether opening the file for writing succeeds.
        A booking appends exactly one record and keeps the earlier ones; a duplicate or an error
        leaves the file as it was. */
    method ScheduleMeeting(name: string, email: string, phone: string, now: int, canWrite: bool) returns (msg: string)
      modifies this
      ensures var v := Decide(old(content), email, phone, now);
        (v == Book && canWrite ==>
          msg == SuccessMessage(name) && content == Records(Existing(old(content)).value + [NewEntry(name, email, phone, now)]))
        && (v == Duplicate ==> msg == AlreadyExistsMessage(name) && content == old(content))
        && (v == Fault || (v == Book && !canWrite) ==> msg == ErrorMessage && content == old(content))
      ensures (msg, content) == Schedule(old(content), name, email, phone, now, canWrite)
    {
      var meetings: seq<Entry>;
      if content.Unreadable? {
        return ErrorMessage;
      } else if content.Records? {
        meetings := content.entries;
      } else {
        meetings := [];
      }
      var i := 0;
      assert meetings[0..] == meetings;
      while i < |meetings|
        invariant 0 <= i <= |meetings|
        invariant Scan(meetings, email, phone, now) == Scan(meetings[i..], email, phone, now)
      {
        var meeting := meetings[i];
        assert meetings[i..][0] == meeting && meetings[i..][1..] == meetings[i + 1..];
        if meeting.NonObject? {
          return ErrorMessage;
        }
        if meeting.email == Some(email) || meeting.phone == Some(phone) {
          if meeting.timestamp.None? {
            return ErrorMessage;
          }
          if now - meeting.timestamp.value < DuplicateWindow {
            return AlreadyExistsMessage(name);
          }
        }
        i := i + 1;
      }
      if !canWrite {
        return ErrorMessage;
      }
      content := Records(meetings + [NewEntry(name, email, phone, now)]);
      msg := SuccessMessage(name);
    }

    /** Two calls with the same email within five minutes: once the first has booked, the second
        reports the duplicate and the file keeps the single new record. */
    method BookTwice(name: string, email: string, phone: string, now: int, later: int) returns (first: string, second: string)
      requires now <= later < now + DuplicateWindow
      modifies this
      ensures Decide(old(content), email, phone, now) == Book ==>
        first == SuccessMessage(name) && second == AlreadyExistsMessage(name)
        && content == Records(Existing(old(content)).value + [NewEntry(name, email, phone, now)])
    {
      ghost var es := Existing(content);
      first := ScheduleMeeting(name, email, phone, now, true);
      if es.Some? && Scan(es.value, email, phone, now) == Book {
        BookedEntryBlocksRepeat(es.value, name, email, phone, now, later);
      }
      second := ScheduleMeeting(name, email, phone, later, true);
    }
  }

  /** Every reply starts with exactly one of the three status words. */
  lemma ReplyPrefixes(name: string)
    ensures StartsWith(SuccessMessage(name), "SUCCESS") && !StartsWith(SuccessMessage(name), "ALREADY_EXISTS") && !StartsWith(SuccessMessage(name), "ERROR")
    ensures StartsWith(AlreadyExistsMessage(name), "ALREADY_EXISTS") && !StartsWith(AlreadyExistsMessage(name), "SUCCESS") && !StartsWith(AlreadyExistsMessage(name), "ERROR")
    ensures StartsWith(ErrorMessage, "ERROR") && !StartsWith(ErrorMessage, "SUCCESS") && !StartsWith(ErrorMessage, "ALREADY_EXISTS")
  {
    var ok, dup, err := SuccessMessage(name), AlreadyExistsMessage(name), ErrorMessage;
    PrefixOfConcat("SUCCESS", ": Meeting successfully saved for " + name + ".");
    PrefixOfConcat("ALREADY_EXISTS", ": A meeting for " + name + " is already recorded.");
    PrefixOfConcat("ERROR", ": Internal server error while saving data.");
    FirstCharDiffers(ok, "ALREADY_EXISTS");
    FirstCharDiffers(ok, "ERROR");
    FirstCharDiffers(dup, "SUCCESS");
    FirstCharDiffers(dup, "ERROR");
    FirstCharDiffers(err, "SUCCESS");
    FirstCharDiffers(err, "ALREADY_EXISTS");
  }

  lemma PrefixOfConcat(p: string, rest: string)
    ensures StartsWith(p + rest, p) && (p != [] ==> (p + rest)[0] == p[0])
  {
    assert (p + rest)[..|p|] == p;
  }

  lemma FirstCharDiffers(s: string, p: string)
    ensures s != [] && p != [] && s[0] != p[0] ==> !StartsWith(s, p)
  {
    if s != [] && p != [] && StartsWith(s, p) {
      assert s[..|p|][0] == s[0];
    }
  }
}
