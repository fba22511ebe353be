/** The vocabulary every replay store shares, and what a log of its answers must satisfy
    (crates/keylix-dpop/src/ports.rs, lines 88 to 172). */
module ReplayLog {
  import opened Text

  type ReplayKey = k: seq<Byte> | |k| == 32 witness seq(32, _ => 0)

  /** `Fresh` and `Replay` answers, and every refusal of the store. */
  datatype Status = Fresh | Replay | Failed

  /** One `check_and_record` call: the clock reading inside it and its answer. */
  datatype Event = Event(key: ReplayKey, expiry: I64, now: I64, status: Status)

  /** No key is declared fresh again at a time within an expiry recorded for it. */
  predicate AtMostOnce(log: seq<Event>) {
    forall i, j :: 0 <= i < j < |log| && log[i].status.Fresh? && log[j].status.Fresh? && log[i].key == log[j].key
                   ==> log[i].expiry < log[j].now
  }

  /** A key is declared fresh only for a record that is still in force. */
  predicate Timely(log: seq<Event>) {
    forall i :: 0 <= i < |log| && log[i].status.Fresh? ==> log[i].now <= log[i].expiry
  }

  lemma AppendEvent(log: seq<Event>, e: Event)
    requires AtMostOnce(log) && Timely(log)
    requires e.status.Fresh? ==>
               e.now <= e.expiry && forall d :: d in log && d.status.Fresh? && d.key == e.key ==> d.expiry < e.now
    ensures AtMostOnce(log + [e]) && Timely(log + [e])
  {
  }
}
