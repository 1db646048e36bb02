/**
 * The error log every stage reports to: an ordered list of
 * `(file, line, message, level)` entries, the set of files that received
 * at least one entry, and a flag raised by the first entry of level "error".
 */
module ErrorLogging {

  const NOTE: string := "notice"
  const WARN: string := "warning"
  const FAIL: string := "error"

  datatype Entry = Entry(file: string, line: int, msg: string, level: string)

  /** One record of the JSON report. */
  datatype Record = Record(file: string, line: int, title: string, message: string, annotationLevel: string)

  /** Some entry has level "error". */
  predicate AnyFail(entries: seq<Entry>) {
    exists i :: 0 <= i < |entries| && entries[i].level == FAIL
  }

  /** The files named by some entry. */
  function FilesOf(entries: seq<Entry>): (r: set<string>)
    ensures forall f :: f in r <==> exists i :: 0 <= i < |entries| && entries[i].file == f
  {
    set i | 0 <= i < |entries| :: entries[i].file
  }

  class ErrorLog {
    var errlist: seq<Entry>
    var hasErrors: bool
    var badfiles: set<string>

    ghost predicate Valid()
      reads this
    {
      hasErrors == AnyFail(errlist) && badfiles == FilesOf(errlist)
    }

    constructor ()
      ensures Valid()
      ensures errlist == [] && !hasErrors && badfiles == {}
    {
      errlist := [];
      hasErrors := false;
      badfiles := {};
    }

    /**
     * Appends exactly one entry; the file becomes a bad file, and the
     * error flag is raised by an "error" entry and never lowered.
     */
    method AddEntry(file: string, line: int, msg: string, level: string)
      requires Valid()
      modifies this
      ensures Valid()
      ensures errlist == old(errlist) + [Entry(file, line, msg, level)]
      ensures badfiles == old(badfiles) + {file}
      ensures hasErrors == (old(hasErrors) || level == FAIL)
    {
      errlist := errlist + [Entry(file, line, msg, level)];
      badfiles := badfiles + {file};
      if level == FAIL {
        hasErrors := true;
      }
      assert errlist[|errlist| - 1].file == file;
      assert forall i :: 0 <= i < |old(errlist)| ==> errlist[i] == old(errlist)[i];
      assert level == FAIL ==> errlist[|errlist| - 1].level == FAIL;
    }

    /** A file has errors iff some entry of any level names it. */
    function FileHasErrors(file: string): (r: bool)
      requires Valid()
      reads this
      ensures r <==> exists i :: 0 <= i < |errlist| && errlist[i].file == file
    {
      file in badfiles
    }

    /** The report built from the log: the log can be read back from it, and each record is titled by its level. */
    function Report(): (r: seq<Record>)
      reads this
      ensures |r| == |errlist| && EntriesOf(r) == errlist
      ensures forall i :: 0 <= i < |r| ==> r[i].annotationLevel == errlist[i].level && r[i].title == "DocsGen " + r[i].annotationLevel
    {
      ReportFaithful(errlist);
      ReportOf(errlist)
    }
  }

  function ToRecord(e: Entry): Record {
    Record(e.file, e.line, "DocsGen " + e.level, e.msg, e.level)
  }

  function ReportOf(entries: seq<Entry>): (r: seq<Record>)
    ensures |r| == |entries|
  {
    if entries == [] then [] else [ToRecord(entries[0])] + ReportOf(entries[1..])
  }

  /** Reads an entry back from its report record. */
  function FromRecord(r: Record): Entry {
    Entry(r.file, r.line, r.message, r.annotationLevel)
  }

  function EntriesOf(report: seq<Record>): (r: seq<Entry>)
    ensures |r| == |report|
  {
    if report == [] then [] else [FromRecord(report[0])] + EntriesOf(report[1..])
  }

  /**
   * The report loses no entry and reorders none: every record's title is
   * "DocsGen" and its level, and the log can be read back from the report.
   */
  lemma {:induction false} ReportFaithful(entries: seq<Entry>)
    ensures EntriesOf(ReportOf(entries)) == entries
    ensures forall i :: 0 <= i < |entries| ==>
      ReportOf(entries)[i].title == "DocsGen " + ReportOf(entries)[i].annotationLevel
      && ReportOf(entries)[i].annotationLevel == entries[i].level
  {
    if entries != [] {
      ReportFaithful(entries[1..]);
      assert forall i :: 1 <= i < |entries| ==> ReportOf(entries)[i] == ReportOf(entries[1..])[i - 1];
    }
  }

  /** The error flag depends only on whether some logged entry has level "error". */
  lemma {:induction false} AnyFailAppend(entries: seq<Entry>, e: Entry)
    ensures AnyFail(entries + [e]) <==> AnyFail(entries) || e.level == FAIL
  {
    var s := entries + [e];
    assert s[|s| - 1] == e;
    if AnyFail(entries) {
      var i :| 0 <= i < |entries| && entries[i].level == FAIL;
      assert s[i] == entries[i];
    }
    if AnyFail(s) {
      var i :| 0 <= i < |s| && s[i].level == FAIL;
      if i < |entries| { assert entries[i] == s[i]; }
    }
  }
}
