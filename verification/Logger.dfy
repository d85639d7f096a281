/** The logger's file, record by record. */
module Loggers {
  import opened Messages
  import opened TextLines
  import opened Parsers

  class Logger {
    var file: Bytes

    constructor ()
      ensures file == []
    {
      file := [];
    }

    /** One turn of the log loop with a popped message: an empty one is skipped, any other becomes a
        stamped record at the end of the file. */
    method Log(msg: Bytes, stamp: Bytes)
      modifies this
      ensures msg != [] ==> file == old(file) + ("[" + stamp + "] : " + msg + "\n")
      ensures file == old(file) + (if msg == [] then [] else Record(stamp, msg).Line() + "\n")
    {
      if msg == [] {
        return;
      }
      file := file + ("[" + stamp + "] : " + msg + "\n");
    }

    method ClearFile()
      modifies this
      ensures file == []
    {
      file := [];
    }
  }

  /** So a log file of records stays one. */
  lemma {:induction false} OneMoreRecord(records: seq<Record>, r: Record)
    ensures LogFile(records + [r]) == LogFile(records) + (r.Line() + "\n")
  {
    var lines := RecordLines(records + [r]);
    assert lines[..|records|] == RecordLines(records);
    Regroup(LogFile(records), r.Line(), "\n");
  }
}
