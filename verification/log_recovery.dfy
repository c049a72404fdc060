/** A log written by one or more writers in turn, cut by a crash, and read back
    (DBImpl::RecoverLogFile, db/db_impl.cc). */
module LogRecovery {
  import opened InternalKey
  import opened LogFormat
  import opened LogWriter
  import opened LogReader

  /** The writer may be opened again on the file at any time. */
  method WriteLog(records: seq<Bytes>) returns (file: Bytes)
    ensures file == LogFile(records)
  {
    hide Fragments;
    var writer := new Writer([]);
    assert records[..0] == [];
    for i := 0 to |records|
      invariant writer.Valid() && writer.dest == LogFile(records[..i])
      invariant fresh(writer)
    {
      var reopened: bool := *;
      if reopened {
        writer := new Writer(writer.dest);
      }
      LogFileGrows(records, i);
      writer.AddRecord(records[i]);
    }
    assert records[..|records|] == records;
    return writer.dest;
  }

  /** Exactly the records that reached the file as a whole come back, and no corruption is
      reported. */
  method RecoverPrefix(records: seq<Bytes>, k: nat, checksum: bool) returns (recovered: seq<Bytes>, reports: seq<Corruption>)
    requires k <= |LogFile(records)|
    ensures recovered == records[..WholeRecords(records, k)] && reports == []
  {
    hide ParseFrom, LogFile;
    var file := WriteLog(records);
    var reader := new Reader(file[..k], checksum);
    CrashPrefix(records, k, checksum);
    recovered := reader.ReadAll();
    reports := reader.reports;
  }
}
