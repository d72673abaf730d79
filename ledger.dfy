/** The session ledger: the list of completed study sessions kept under the
    storage key `study_sessions`, and saveSession, which turns the timer's
    reading into a new session at the end of that list and resets the timer. */
module Ledger {
  import opened Clock
  import opened Timer
  import opened Text

  /** A calendar day. Sessions are only ever compared by the day they fall on,
      so a day is a key: day `d - i` is the day `i` days before day `d`. */
  type Day = int

  /** One completed session: its name, its length in seconds and the day it was saved on. */
  datatype Session = Session(name: string, duration: nat, day: Day)

  /** The name a session gets when the name field holds nothing but whitespace. */
  const DefaultName: string := "Unnamed Session"

  /** `sessionNameInput.value.trim() || 'Unnamed Session'`: the typed name
      without surrounding whitespace, or the placeholder when that leaves
      nothing. A saved name is never empty and never starts or ends with
      whitespace. */
  function SessionName(input: string): (r: string)
    ensures r != [] && !IsWhitespace(r[0]) && !IsWhitespace(r[|r| - 1])
    ensures AllWhitespace(input) ==> r == DefaultName
    ensures !AllWhitespace(input) ==> r == Trim(input)
  {
    var t := Trim(input);
    if t == [] then
      assert DefaultName[0] == 'U' && DefaultName[|DefaultName| - 1] == 'n';
      DefaultName
    else t
  }

  /** The stored list of sessions, oldest first. */
  class SessionStore {
    var sessions: seq<Session>

    constructor (initial: seq<Session>)
      ensures sessions == initial
    {
      sessions := initial;
    }

    /** `sessions.push(session)` followed by writing the list back. */
    method Append(s: Session)
      modifies this
      ensures sessions == old(sessions) + [s]
    {
      sessions := sessions + [s];
    }
  }

  /** saveSession: the session takes its name from the input field, its
      duration from the timer's total and its day from the clock; it goes at
      the end of the ledger, so the ledger grows by one and every earlier
      session stays as it was; the timer is then reset. */
  method SaveSession(timer: StudyTimer, store: SessionStore, input: string, today: Day)
    requires timer.Valid()
    modifies timer, store
    ensures store.sessions
      == old(store.sessions) + [Session(SessionName(input), old(timer.Counters().Total()), today)]
    ensures timer.Valid() && !timer.isRunning && timer.Counters() == Zero
  {
    var name := SessionName(input);
    var duration := timer.hours * 3600 + timer.minutes * 60 + timer.seconds;
    var session := Session(name, duration, today);
    store.Append(session);
    timer.Reset();
  }
}
