/**
 * The filename ingest of the wayback indexer (`FileNameHarvester.harvest`): each line of the
 * file list returned by a batch job is trimmed, and a record for it, not yet indexed, is added
 * to the archive-file store unless one with that filename already exists.
 */
module FileNameIngest {
  import opened Basics
  import opened Strings

  /** `ArchiveFile`, as far as the ingest sets it: the filename (its key) and the indexed flag. */
  datatype ArchiveFile = ArchiveFile(filename: string, indexed: bool)

  /** The archive-file store (`ArchiveFileDAO`): records by filename. */
  class ArchiveFileDAO {
    var records: map<string, ArchiveFile>

    constructor(records: map<string, ArchiveFile>)
      ensures this.records == records
    {
      this.records := records;
    }

    /** `exists`: whether a record with this filename is stored. */
    predicate Exists(filename: string)
      reads this
    {
      filename in records
    }

    /** `create`: stores the record under its filename. */
    method Create(file: ArchiveFile)
      modifies this
      ensures records == old(records)[file.filename := file]
    {
      records := records[file.filename := file];
    }
  }

  /** The record for a filename seen for the first time. */
  function NewRecord(filename: string): (f: ArchiveFile)
    ensures f.filename == filename && !f.indexed
  {
    ArchiveFile(filename, false)
  }

  /**
   * One line of the listing: its trimmed form is added unless already stored. The stored
   * filenames grow by the trimmed line, stored records keep their value, and a new filename gets
   * a new record.
   */
  function IngestLine(records: map<string, ArchiveFile>, line: string): (r: map<string, ArchiveFile>)
    ensures r.Keys == records.Keys + {Trim(line)}
    ensures forall name :: name in records ==> r[name] == records[name]
    ensures Trim(line) !in records ==> r[Trim(line)] == NewRecord(Trim(line))
  {
    var filename := Trim(line);
    if filename in records then records else records[filename := NewRecord(filename)]
  }

  /** The store after ingesting the lines in order: it only grows, and stored records keep their value. */
  function Ingest(records: map<string, ArchiveFile>, lines: seq<string>): (r: map<string, ArchiveFile>)
    ensures records.Keys <= r.Keys
    ensures forall name :: name in records ==> r[name] == records[name]
  {
    if lines == [] then records else IngestLine(Ingest(records, lines[..|lines| - 1]), lines[|lines| - 1])
  }

  /** The filenames the lines stand for once trimmed. */
  function TrimmedNames(lines: seq<string>): set<string> {
    set i | 0 <= i < |lines| :: Trim(lines[i])
  }

  /** How `harvest` ends: normally, or with `IOFailure` when reading the list fails. */
  datatype Outcome = Completed | IOFailure

  /**
   * The lines `harvest` gets to read: all of them, or those before the read that throws.
   * `readFailure == Some(k)` means the `k`-th call of `readLine` (from 0) throws.
   */
  function LinesRead(listing: seq<string>, readFailure: Option<nat>): (r: seq<string>)
    ensures r <= listing
  {
    if readFailure.Some? && readFailure.value <= |listing| then listing[..readFailure.value] else listing
  }

  /**
   * `harvest`: the line loop over the list file. The store ends up as the ingest of every line
   * read; a failing read ends the loop with `IOFailure`, keeping what was stored before it.
   */
  method Harvest(dao: ArchiveFileDAO, listing: seq<string>, readFailure: Option<nat>) returns (r: Outcome)
    modifies dao
    ensures dao.records == Ingest(old(dao.records), LinesRead(listing, readFailure))
    ensures r == IOFailure <==> readFailure.Some? && readFailure.value <= |listing|
  {
    var next := 0;
    while true
      invariant 0 <= next <= |listing|
      invariant readFailure.Some? ==> next <= readFailure.value
      invariant dao.records == Ingest(old(dao.records), listing[..next])
      decreases |listing| - next
    {
      if readFailure == Some(next) {
        return IOFailure;
      }
      if next == |listing| {
        break;
      }
      var line := listing[next];
      ghost var ingested := Ingest(old(dao.records), listing[..next + 1]);
      assert ingested == IngestLine(dao.records, line) by {
        assert listing[..next + 1][..next] == listing[..next];
      }
      if !dao.Exists(Trim(line)) {
        var file := NewRecord(Trim(line));
        dao.Create(file);
      }
      assert dao.records == ingested;
      next := next + 1;
    }
    assert listing[..next] == listing;
    return Completed;
  }

  lemma TrimmedNamesSnoc(lines: seq<string>, line: string)
    ensures TrimmedNames(lines + [line]) == TrimmedNames(lines) + {Trim(line)}
  {
    var all := lines + [line];
    forall name | name in TrimmedNames(all)
      ensures name in TrimmedNames(lines) + {Trim(line)}
    {
      var i :| 0 <= i < |all| && Trim(all[i]) == name;
      if i < |lines| {
        assert all[i] == lines[i];
      }
    }
    forall name | name in TrimmedNames(lines)
      ensures name in TrimmedNames(all)
    {
      var i :| 0 <= i < |lines| && Trim(lines[i]) == name;
      assert all[i] == lines[i];
    }
    assert all[|lines|] == line;
  }

  /** After ingesting, the stored filenames are the old ones plus every trimmed line. */
  lemma {:induction false} IngestKeys(records: map<string, ArchiveFile>, lines: seq<string>)
    ensures Ingest(records, lines).Keys == records.Keys + TrimmedNames(lines)
  {
    if lines != [] {
      var init, last := lines[..|lines| - 1], lines[|lines| - 1];
      var before := Ingest(records, init);
      assert before.Keys == records.Keys + TrimmedNames(init) by {
        IngestKeys(records, init);
      }
      assert TrimmedNames(lines) == TrimmedNames(init) + {Trim(last)} by {
        assert lines == init + [last];
        TrimmedNamesSnoc(init, last);
      }
      assert Ingest(records, lines).Keys == before.Keys + {Trim(last)};
    }
  }

  /**
   * Old records are untouched by the ingest, including their indexed flag; new records are for
   * their trimmed filename and not indexed.
   */
  lemma {:induction false} IngestRecords(records: map<string, ArchiveFile>, lines: seq<string>)
    ensures forall name :: name in records ==> name in Ingest(records, lines) && Ingest(records, lines)[name] == records[name]
    ensures forall name :: name in Ingest(records, lines) && name !in records ==> Ingest(records, lines)[name] == NewRecord(name)
  {
    if lines != [] {
      IngestRecords(records, lines[..|lines| - 1]);
    }
  }

  /** Every filename the ingest adds is already trimmed. */
  lemma AddedNamesAreTrimmed(records: map<string, ArchiveFile>, lines: seq<string>, name: string)
    requires name in Ingest(records, lines) && name !in records
    ensures Trim(name) == name
  {
    IngestKeys(records, lines);
    var i :| 0 <= i < |lines| && Trim(lines[i]) == name;
    TrimIdempotent(lines[i]);
  }

  /** Ingesting lines whose filenames are all stored changes nothing. */
  lemma {:induction false} IngestKnownNames(records: map<string, ArchiveFile>, lines: seq<string>)
    requires TrimmedNames(lines) <= records.Keys
    ensures Ingest(records, lines) == records
  {
    if lines != [] {
      var init := lines[..|lines| - 1];
      assert TrimmedNames(init) <= TrimmedNames(lines) by {
        forall name | name in TrimmedNames(init)
          ensures name in TrimmedNames(lines)
        {
          var i :| 0 <= i < |init| && Trim(init[i]) == name;
          assert lines[i] == init[i];
        }
      }
      IngestKnownNames(records, init);
      assert Trim(lines[|lines| - 1]) in TrimmedNames(lines);
    }
  }

  /** Ingesting two lists one after the other is ingesting their concatenation. */
  lemma {:induction false} IngestAppend(records: map<string, ArchiveFile>, a: seq<string>, b: seq<string>)
    ensures Ingest(records, a + b) == Ingest(Ingest(records, a), b)
    decreases |b|
  {
    if b == [] {
      assert a + b == a;
    } else {
      var b' := b[..|b| - 1];
      assert (a + b)[..|a + b| - 1] == a + b';
      IngestAppend(records, a, b');
    }
  }

  /** A second run over the same list leaves the store as the first run left it. */
  lemma IngestIdempotent(records: map<string, ArchiveFile>, lines: seq<string>)
    ensures Ingest(Ingest(records, lines), lines) == Ingest(records, lines)
  {
    IngestKeys(records, lines);
    IngestKnownNames(Ingest(records, lines), lines);
  }

  /**
   * A line whose filename is already stored, or was on an earlier line, adds nothing: the
   * store ends up as if the line were not there.
   */
  lemma RepeatedLineAddsNothing(records: map<string, ArchiveFile>, a: seq<string>, line: string, b: seq<string>)
    requires Trim(line) in records || Trim(line) in TrimmedNames(a)
    ensures Ingest(records, a + [line] + b) == Ingest(records, a + b)
  {
    IngestKeys(records, a);
    assert (a + [line])[..|a|] == a;
    assert Ingest(records, a + [line]) == Ingest(records, a);
    IngestAppend(records, a + [line], b);
    IngestAppend(records, a, b);
  }

  /** Repeated lines add nothing: a list given twice over stores what the list once stores. */
  lemma DuplicateLinesAddNothing(records: map<string, ArchiveFile>, lines: seq<string>)
    ensures Ingest(records, lines + lines) == Ingest(records, lines)
  {
    IngestAppend(records, lines, lines);
    IngestIdempotent(records, lines);
  }
}
