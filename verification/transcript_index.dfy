/**
  The transcript listing and its search box: the transcripts folder is read
  into a table of (filename, transcription) records, which a non-empty
  query narrows case-insensitively.
 */
module TranscriptIndex {
  import opened Wrappers
  import opened Strings
  import opened Seqs
  import opened Naming
  import opened ArtifactStore

  datatype Record = Record(filename: string, transcription: string)

  /**
    The pandas table holding the records. Built from no records it has no
    columns at all; narrowing a table keeps its columns even when no row is left.
   */
  datatype Frame = NoColumns | Table(rows: seq<Record>)

  /** Raised when the search reads a column the table does not have (pandas' KeyError). */
  datatype SearchError = MissingColumn(column: string)

  function Rows(f: Frame): seq<Record> {
    match f
    case NoColumns => []
    case Table(rows) => rows
  }

  function Filenames(rows: seq<Record>): (names: seq<string>)
    ensures |names| == |rows|
    ensures forall i :: 0 <= i < |rows| ==> names[i] == rows[i].filename
  {
    seq(|rows|, i requires 0 <= i < |rows| => rows[i].filename)
  }

  /**
    `load_transcriptions`' loop: the directory entries ending in ".txt", in
    enumeration order, each paired with the text stored under it.
   */
  function Listing(entries: seq<string>, folder: map<string, string>): (rows: seq<Record>)
    requires forall e :: e in entries ==> e in folder
    ensures Filenames(rows) == Filter(IsTranscriptFile, entries)
    ensures forall i :: 0 <= i < |rows| ==>
      rows[i].filename in folder && rows[i].transcription == folder[rows[i].filename]
    decreases |entries|
  {
    if |entries| == 0 then
      []
    else
      var rest := Listing(entries[1..], folder);
      if IsTranscriptFile(entries[0]) then
        var rows := [Record(entries[0], folder[entries[0]])] + rest;
        assert Filenames(rows) == [entries[0]] + Filenames(rest);
        rows
      else
        rest
  }

  /** `load_transcriptions`: the listing as a table; without transcripts the table has no columns. */
  function LoadTranscriptions(entries: seq<string>, folder: map<string, string>): (f: Frame)
    requires forall e :: e in entries ==> e in folder
    ensures Rows(f) == Listing(entries, folder)
    ensures f.NoColumns? <==> forall i :: 0 <= i < |entries| ==> !IsTranscriptFile(entries[i])
  {
    var rows := Listing(entries, folder);
    assert (forall i :: 0 <= i < |entries| ==> !IsTranscriptFile(entries[i])) <==> rows == [] by {
      if forall i :: 0 <= i < |entries| ==> !IsTranscriptFile(entries[i]) {
        FilterKeepsNone(entries);
        assert |Filenames(rows)| == 0;
      }
      if rows == [] {
        forall i | 0 <= i < |entries|
          ensures !IsTranscriptFile(entries[i])
        {
          FilterMembership(IsTranscriptFile, entries, entries[i]);
        }
      }
    }
    if rows == [] then NoColumns else Table(rows)
  }

  lemma FilterKeepsNone(entries: seq<string>)
    requires forall i :: 0 <= i < |entries| ==> !IsTranscriptFile(entries[i])
    ensures Filter(IsTranscriptFile, entries) == []
  {
    if Filter(IsTranscriptFile, entries) != [] {
      var x := Filter(IsTranscriptFile, entries)[0];
      FilterMembership(IsTranscriptFile, entries, x);
    }
  }

  /**
    Over a complete directory enumeration the listing holds every transcript
    file exactly once and nothing else.
   */
  lemma ListingExact(entries: seq<string>, folder: map<string, string>)
    requires EnumeratesFolder(entries, folder)
    ensures forall e :: e in entries ==> e in folder
    ensures forall f :: multiset(Filenames(Listing(entries, folder)))[f]
                        == if f in folder && IsTranscriptFile(f) then 1 else 0
  {
    assert forall e :: e in entries ==> e in folder by {
      forall e | e in entries
        ensures e in folder
      {
        assert multiset(entries)[e] > 0;
      }
    }
    FilterCountAll(IsTranscriptFile, entries);
  }

  /** The row test of the search: the query occurs in the filename or in the text, ignoring ASCII case. */
  function Matches(query: string, r: Record): (b: bool)
    ensures b <==>
      || (exists i :: OccursAt(Lower(r.filename), Lower(query), i))
      || (exists i :: OccursAt(Lower(r.transcription), Lower(query), i))
  {
    || Contains(Lower(r.filename), Lower(query))
    || Contains(Lower(r.transcription), Lower(query))
  }

  /**
    The case of the query and of the row's text does not matter: lower-casing
    either leaves the verdict unchanged.
   */
  lemma MatchesIgnoresCase(query: string, r: Record)
    ensures Matches(Lower(query), r) == Matches(query, r)
    ensures Matches(query, Record(Lower(r.filename), Lower(r.transcription))) == Matches(query, r)
  {
    LowerIdempotent(query);
    LowerIdempotent(r.filename);
    LowerIdempotent(r.transcription);
  }

  /** The query "HALLO" finds a transcript reading "Hallo Welt"; its filename alone finds it too. */
  lemma MatchesExample()
    ensures Matches("HALLO", Record("a.txt", "Hallo Welt"))
    ensures Matches("a.txt", Record("a.txt", "Guten Tag"))
  {
    assert Lower("HALLO") == "hallo";
    assert Lower("Hallo Welt")[0..5] == "hallo";
    assert OccursAt(Lower("Hallo Welt"), Lower("HALLO"), 0);
    assert Lower("a.txt") == "a.txt";
    assert OccursAt(Lower("a.txt"), Lower("a.txt"), 0);
  }

  /**
    The search box: an empty query shows the table as it is; otherwise the
    rows matching in either column are kept, in table order. The query is
    taken literally.
   */
  function Search(f: Frame, query: string): (r: Result<Frame, SearchError>)
    ensures query == "" ==> r == Success(f)
    ensures query != "" && f.NoColumns? ==> r == Failure(MissingColumn("filename"))
    ensures query != "" && f.Table? ==>
      && r.Success? && r.value.Table?
      && IsSubsequence(r.value.rows, f.rows)
      && |r.value.rows| <= |f.rows|
      && forall x :: multiset(r.value.rows)[x] == if Matches(query, x) then multiset(f.rows)[x] else 0
  {
    if query == "" then
      Success(f)
    else
      match f
      case NoColumns => Failure(MissingColumn("filename"))
      case Table(rows) =>
        var kept := Filter(x => Matches(query, x), rows);
        FilterIsSubsequence(x => Matches(query, x), rows);
        FilterCountAll(x => Matches(query, x), rows);
        Success(Table(kept))
  }

  /** Searching the result of a search again with the same query changes nothing. */
  lemma SearchIdempotent(f: Frame, query: string)
    requires Search(f, query).Success?
    ensures Search(Search(f, query).value, query) == Search(f, query)
  {
    if query != "" {
      FilterIdempotent(x => Matches(query, x), f.rows);
    }
  }
}
