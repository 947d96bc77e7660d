/**
  The saved-news archive behind `save_news` and `load_saved_news`
  (news_chatbot.py, lines 267-305): a JSON list of records, appended to by
  reading the whole list, adding one record and writing it back.
*/
module Archive {
  import opened Feed

  /** One saved search: the keyword, the time of saving, and the articles found. */
  datatype ArchiveRecord = ArchiveRecord(keyword: string, timestamp: string, articles: seq<Article>)

  /** The archive file: missing, present but unreadable (bad JSON, I/O error), or a list of records. */
  datatype ArchiveFile = Absent | Unreadable | Records(records: seq<ArchiveRecord>)

  /** `load_saved_news`: the records, or none when the file is missing or unreadable. */
  function LoadAll(f: ArchiveFile): (records: seq<ArchiveRecord>)
    ensures f.Records? ==> records == f.records
    ensures !f.Records? ==> records == []
  {
    if f.Records? then f.records else []
  }

  class NewsArchive {
    var file: ArchiveFile

    constructor(initial: ArchiveFile)
      ensures file == initial
    {
      file := initial;
    }

    /**
      `save_news` (news_chatbot.py, lines 267-293). `timestamp` is the
      wall-clock time the source formats as `%Y-%m-%d %H:%M:%S`; `writeOk`
      is whether rewriting the file succeeded.
    */
    method Save(keyword: string, articles: seq<Article>, timestamp: string, writeOk: bool) returns (ok: bool)
      modifies this
      ensures ok <==> old(file) != Unreadable && writeOk
      ensures ok ==> file == Appended(old(file), ArchiveRecord(keyword, timestamp, articles))
      ensures !ok ==> file == old(file)
    {
      var saved: seq<ArchiveRecord>;
      match file {
        case Unreadable =>
          return false;
        case Absent =>
          saved := [];
        case Records(rs) =>
          saved := rs;
      }
      saved := saved + [ArchiveRecord(keyword, timestamp, articles)];
      if !writeOk {
        return false;
      }
      file := Records(saved);
      return true;
    }

    /** `load_saved_news` (news_chatbot.py, lines 296-305). */
    method Load() returns (records: seq<ArchiveRecord>)
      ensures records == LoadAll(file)
    {
      match file {
        case Records(rs) =>
          records := rs;
        case _ =>
          records := [];
      }
    }
  }

  /** The file after a successful save, as a function of the file before it (never unreadable). */
  function Appended(f: ArchiveFile, r: ArchiveRecord): (g: ArchiveFile)
    requires f != Unreadable
    ensures g.Records? && LoadAll(g) == LoadAll(f) + [r]
  {
    Records(LoadAll(f) + [r])
  }

  /**
    After a successful save, loading gives one more record than before: the
    saved one comes last and every earlier record is unchanged.
  */
  lemma SaveThenLoad(f: ArchiveFile, r: ArchiveRecord)
    requires f != Unreadable
    ensures |LoadAll(Appended(f, r))| == |LoadAll(f)| + 1
    ensures LoadAll(Appended(f, r))[|LoadAll(f)|] == r
    ensures forall i :: 0 <= i < |LoadAll(f)| ==> LoadAll(Appended(f, r))[i] == LoadAll(f)[i]
  {
  }

  /** Saving into a missing file creates a one-record archive. */
  lemma FirstSave(r: ArchiveRecord)
    ensures LoadAll(Appended(Absent, r)) == [r]
  {
  }

  /** Successive saves keep their order: records come back in the order they were saved. */
  lemma {:induction false} SavesInOrder(f: ArchiveFile, rs: seq<ArchiveRecord>)
    requires f != Unreadable
    ensures LoadAll(SaveAll(f, rs)) == LoadAll(f) + rs
    decreases |rs|
  {
    if rs != [] {
      SavesInOrder(f, rs[..|rs| - 1]);
      assert rs[..|rs| - 1] + [rs[|rs| - 1]] == rs;
    }
  }

  /** The file after the successful saves of `rs`, one after the other. */
  function SaveAll(f: ArchiveFile, rs: seq<ArchiveRecord>): (g: ArchiveFile)
    requires f != Unreadable
    ensures g != Unreadable
    decreases |rs|
  {
    if rs == [] then f else Appended(SaveAll(f, rs[..|rs| - 1]), rs[|rs| - 1])
  }
}
