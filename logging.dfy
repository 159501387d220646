/**
 * The duplicate-record filter installed on the exporter's logger.
 *
 * A record at INFO level or below always passes. A record above INFO passes
 * only when its identity (module, level, message) differs from the identity
 * of the last record above INFO that passed, which the filter remembers. A run
 * of identical warnings or errors therefore shows up as a single line.
 */
module Logging {
  import opened Wrappers

  // Numeric levels of the standard logging library.
  const DEBUG: int := 10
  const INFO: int := 20
  const WARNING: int := 30
  const ERROR: int := 40

  /**
   * The messages the exporter's loop logs: `Failed to initialise UART.`,
   * `Failed to read temperature.`, and the periodic reading line
   * `Read {celsius:+.2f} C`, kept as the value it renders rather than as
   * formatted text. Distinct constructors stand for distinct texts.
   */
  datatype Message = InitFailedText | ReadFailedText | ReadingLine(celsius: real)

  datatype LogRecord = LogRecord(moduleName: string, levelno: int, msg: Message)

  /** The identity triple the filter compares and remembers. */
  type Key = (string, int, Message)

  function KeyOf(r: LogRecord): Key {
    (r.moduleName, r.levelno, r.msg)
  }

  /** Whether a record passes, and what the filter remembers afterwards. */
  datatype Verdict = Verdict(pass: bool, last: Option<Key>)

  /** The decision `filter` makes for one record, given the remembered identity. */
  function Decide(last: Option<Key>, r: LogRecord): (v: Verdict)
    // Records at INFO or below always pass and are not remembered.
    ensures r.levelno <= INFO ==> v.pass && v.last == last
    // Above INFO, a record passes exactly when it is not a repeat of the remembered one ...
    ensures r.levelno > INFO ==> (v.pass <==> last != Some(KeyOf(r)))
    // ... a rejected record leaves the memory alone ...
    ensures !v.pass ==> v.last == last
    // ... and either way the filter ends up remembering this record's identity.
    ensures r.levelno > INFO ==> v.last == Some(KeyOf(r))
  {
    if r.levelno <= INFO then Verdict(true, last)
    else if Some(KeyOf(r)) != last then Verdict(true, Some(KeyOf(r)))
    else Verdict(false, last)
  }

  /** The logger's filter object; `lastLog` is its only state. */
  class DuplicateFilter {
    var lastLog: Option<Key>

    constructor ()
      ensures lastLog == None
    {
      lastLog := None;
    }

    method Filter(record: LogRecord) returns (pass: bool)
      modifies this
      ensures record.levelno <= INFO ==> pass && lastLog == old(lastLog)
      ensures record.levelno > INFO ==> (pass <==> old(lastLog) != Some(KeyOf(record)))
      ensures record.levelno > INFO ==> lastLog == Some(KeyOf(record))
      ensures Verdict(pass, lastLog) == Decide(old(lastLog), record)
    {
      if record.levelno <= INFO {
        return true;
      }
      var currentLog := KeyOf(record);
      if Some(currentLog) != lastLog {
        lastLog := Some(currentLog);
        return true;
      }
      return false;
    }
  }

  /** The records that get through, and the filter's memory, after a stream of records. */
  datatype Filtered = Filtered(shown: seq<LogRecord>, last: Option<Key>)

  /** Feeds `rs` through the filter one record after another, starting from `last`. */
  function FilterRun(last: Option<Key>, rs: seq<LogRecord>): (f: Filtered)
    // The filter only ever drops records: what is shown is a selection of what was fed in.
    ensures |f.shown| <= |rs|
    ensures forall r :: r in f.shown ==> r in rs
    decreases |rs|
  {
    if rs == [] then Filtered([], last)
    else
      var p := FilterRun(last, rs[..|rs| - 1]);
      var r := rs[|rs| - 1];
      var v := Decide(p.last, r);
      Filtered(if v.pass then p.shown + [r] else p.shown, v.last)
  }

  /** Reference definition: the identity of the latest record above INFO in `rs`, or `last` if there is none. */
  function LatestAboveInfo(last: Option<Key>, rs: seq<LogRecord>): Option<Key>
    decreases |rs|
  {
    if rs == [] then last
    else if rs[|rs| - 1].levelno > INFO then Some(KeyOf(rs[|rs| - 1]))
    else LatestAboveInfo(last, rs[..|rs| - 1])
  }

  /**
   * Reference definition of the filtered stream: keep every record at INFO or
   * below, and every record above INFO that does not repeat the latest record
   * above INFO before it, whether that one was shown or not.
   */
  function Deduplicated(last: Option<Key>, rs: seq<LogRecord>): seq<LogRecord>
    decreases |rs|
  {
    if rs == [] then []
    else
      var prefix := rs[..|rs| - 1];
      var r := rs[|rs| - 1];
      Deduplicated(last, prefix) +
        (if r.levelno <= INFO || LatestAboveInfo(last, prefix) != Some(KeyOf(r)) then [r] else [])
  }

  /** What the filter remembers is the identity of the latest record above INFO it was fed. */
  lemma {:induction false} RememberedIsLatestAboveInfo(last: Option<Key>, rs: seq<LogRecord>)
    ensures FilterRun(last, rs).last == LatestAboveInfo(last, rs)
    decreases |rs|
  {
    if rs != [] {
      RememberedIsLatestAboveInfo(last, rs[..|rs| - 1]);
    }
  }

  /** The filter drops exactly the records above INFO that repeat the latest record above INFO. */
  lemma {:induction false} FilterRunDeduplicates(last: Option<Key>, rs: seq<LogRecord>)
    ensures FilterRun(last, rs).shown == Deduplicated(last, rs)
    decreases |rs|
  {
    if rs != [] {
      FilterRunDeduplicates(last, rs[..|rs| - 1]);
      RememberedIsLatestAboveInfo(last, rs[..|rs| - 1]);
    }
  }

  /** A record at INFO or below is never dropped, wherever it appears in the stream. */
  lemma {:induction false} InfoRecordsAlwaysShown(last: Option<Key>, rs: seq<LogRecord>, k: nat)
    requires k < |rs| && rs[k].levelno <= INFO
    ensures rs[k] in FilterRun(last, rs).shown
    decreases |rs|
  {
    if k < |rs| - 1 {
      InfoRecordsAlwaysShown(last, rs[..|rs| - 1], k);
    }
  }

  /**
   * k >= 1 identical records above INFO in a row produce exactly one line,
   * or none when the filter already remembers that identity, and leave the
   * filter remembering it.
   */
  lemma {:induction false} RepeatsCollapse(last: Option<Key>, r: LogRecord, rs: seq<LogRecord>)
    requires r.levelno > INFO
    requires |rs| >= 1 && forall j :: 0 <= j < |rs| ==> rs[j] == r
    ensures FilterRun(last, rs).shown == if last == Some(KeyOf(r)) then [] else [r]
    ensures FilterRun(last, rs).last == Some(KeyOf(r))
    decreases |rs|
  {
    if |rs| > 1 {
      RepeatsCollapse(last, r, rs[..|rs| - 1]);
    }
  }
}
