/**
  The page's result list: every row found by the search is shown with its
  heading, the audio file derived from its name, and its text. Ends with the
  whole flow from one upload to the row the search shows for it.
 */
module App {
  import opened Wrappers
  import opened Strings
  import opened Seqs
  import Paths
  import opened Naming
  import opened ArtifactStore
  import opened TranscriptIndex

  /** One rendered row; `audio` is `None` when the derived audio file is not in the audio folder. */
  datatype Shown = Shown(heading: string, audio: Option<Bytes>, text: string)

  /** The audio file the page plays for a transcript: the transcript name with every ".txt" deleted. */
  function ResolveAudio(audio: map<string, Bytes>, transcriptName: string): (r: Option<Bytes>)
    ensures r.Some? <==> AudioNameOf(transcriptName) in audio
    ensures r.Some? ==> r.value == audio[AudioNameOf(transcriptName)]
  {
    var key := AudioNameOf(transcriptName);
    if key in audio then Some(audio[key]) else None
  }

  /**
    Every row is shown, in order, with the audio stored under the name
    derived from its filename. A missing audio file is marked `None` here;
    the page itself has no such marker.
   */
  function Render(rows: seq<Record>, audio: map<string, Bytes>): (shown: seq<Shown>)
    ensures |shown| == |rows|
    ensures forall i :: 0 <= i < |rows| ==>
      && shown[i].heading == rows[i].filename
      && shown[i].text == rows[i].transcription
      && (shown[i].audio.None? <==> AudioNameOf(rows[i].filename) !in audio)
      && (AudioNameOf(rows[i].filename) in audio ==>
            shown[i].audio == Some(audio[AudioNameOf(rows[i].filename)]))
  {
    seq(|rows|, i requires 0 <= i < |rows| =>
      Shown(rows[i].filename, ResolveAudio(audio, rows[i].filename), rows[i].transcription))
  }

  /**
    Uploading `name` and then searching with a query it matches (or none)
    yields its transcript exactly once, shown with the uploaded audio, as
    long as `name` is a plain file name without ".txt" in it.
   */
  lemma UploadedTranscriptIsFound(
    s: Store, name: string, data: Bytes, engine: Engine, entries: seq<string>, query: string)
    requires '/' !in name && !Contains(name, TranscriptSuffix)
    requires engine(data).Success?
    requires EnumeratesFolder(entries, Upload(s, name, data, engine).store.transcripts)
    requires query == "" || Matches(query, Record(name + TranscriptSuffix, engine(data).value))
    ensures forall e :: e in entries ==> e in Upload(s, name, data, engine).store.transcripts
    ensures
      var after := Upload(s, name, data, engine).store;
      var found := Search(LoadTranscriptions(entries, after.transcripts), query);
      var row := Record(name + TranscriptSuffix, engine(data).value);
      && found.Success?
      && multiset(Rows(found.value))[row] == 1
      && Shown(row.filename, Some(data), row.transcription) in Render(Rows(found.value), after.audio)
  {
    var after := Upload(s, name, data, engine).store;
    var row := Record(name + TranscriptSuffix, engine(data).value);
    Paths.BasenameOfPlainName(name);
    RecoverUploadedName(name);
    FoundOnce(entries, after.transcripts, after.audio, row, query);
  }

  /**
    A stored transcript is found exactly once by a query it matches, whatever
    the audio folder holds; when its derived audio is stored, it is shown
    with that audio.
   */
  lemma FoundOnce(entries: seq<string>, folder: map<string, string>, audio: map<string, Bytes>, row: Record, query: string)
    requires EnumeratesFolder(entries, folder)
    requires row.filename in folder && IsTranscriptFile(row.filename) && row.transcription == folder[row.filename]
    requires query == "" || Matches(query, row)
    ensures forall e :: e in entries ==> e in folder
    ensures
      var found := Search(LoadTranscriptions(entries, folder), query);
      && found.Success?
      && multiset(Rows(found.value))[row] == 1
      && (AudioNameOf(row.filename) in audio ==>
            Shown(row.filename, Some(audio[AudioNameOf(row.filename)]), row.transcription) in Render(Rows(found.value), audio))
  {
    ListedOnce(entries, folder, row);
    var found := Search(LoadTranscriptions(entries, folder), query);
    assert row in Rows(found.value);
    if AudioNameOf(row.filename) in audio {
      RenderedWithAudio(Rows(found.value), audio, row);
    }
  }

  /** A transcript file of a completely enumerated folder is listed once, and the table has columns. */
  lemma ListedOnce(entries: seq<string>, folder: map<string, string>, row: Record)
    requires EnumeratesFolder(entries, folder)
    requires row.filename in folder && IsTranscriptFile(row.filename) && row.transcription == folder[row.filename]
    ensures forall e :: e in entries ==> e in folder
    ensures LoadTranscriptions(entries, folder).Table?
    ensures multiset(Listing(entries, folder))[row] == 1
  {
    ListingExact(entries, folder);
    var listing := Listing(entries, folder);
    RowsDeterminedByName(listing, folder, row);
    assert listing != [] by {
      assert row in listing;
    }
  }

  /** A shown row whose derived audio name is stored plays that audio. */
  lemma RenderedWithAudio(rows: seq<Record>, audio: map<string, Bytes>, row: Record)
    requires row in rows && AudioNameOf(row.filename) in audio
    ensures Shown(row.filename, Some(audio[AudioNameOf(row.filename)]), row.transcription) in Render(rows, audio)
  {
    var j :| 0 <= j < |rows| && rows[j] == row;
    assert Render(rows, audio)[j] == Shown(row.filename, Some(audio[AudioNameOf(row.filename)]), row.transcription);
  }

  /**
    When every row carries the text stored under its name, a row occurs as
    often as its name does.
   */
  lemma {:induction false} RowsDeterminedByName(rows: seq<Record>, folder: map<string, string>, row: Record)
    requires forall i :: 0 <= i < |rows| ==> rows[i].filename in folder && rows[i].transcription == folder[rows[i].filename]
    requires row.filename in folder && row.transcription == folder[row.filename]
    ensures multiset(rows)[row] == multiset(Filenames(rows))[row.filename]
    decreases |rows|
  {
    if |rows| > 0 {
      RowsDeterminedByName(rows[1..], folder, row);
      assert rows == [rows[0]] + rows[1..];
      FilenamesCons(rows);
      CountCons(rows[0], rows[1..], row);
      CountCons(rows[0].filename, Filenames(rows[1..]), row.filename);
      assert rows[0].transcription == folder[rows[0].filename];
    }
  }

  lemma FilenamesCons(rows: seq<Record>)
    requires |rows| > 0
    ensures Filenames(rows) == [rows[0].filename] + Filenames(rows[1..])
  {
  }

  /**
    Deleting every ".txt" can land on another upload: the transcript of
    `x + ".txt" + w` is named `x + ".txt" + w + ".txt"`, and its row plays
    whatever is stored under `x + w`, or nothing when no such file exists.
   */
  lemma DirtyNamePlaysOtherUpload(x: string, w: string, audio: map<string, Bytes>)
    requires !Contains(x, TranscriptSuffix) && !Contains(w, TranscriptSuffix)
    ensures AudioNameOf(x + TranscriptSuffix + w + TranscriptSuffix) == x + w
    ensures ResolveAudio(audio, x + TranscriptSuffix + w + TranscriptSuffix)
            == if x + w in audio then Some(audio[x + w]) else None
  {
    AudioNameOfDirty(x, w);
  }

  /** "a.txt.wav" is stored as "a.txt.wav.txt", whose row plays the upload "a.wav" when there is one. */
  lemma DirtyNameExamplePlays(d1: Bytes, d2: Bytes)
    ensures AudioNameOf("a.txt.wav.txt") == "a.wav"
    ensures ResolveAudio(map["a.wav" := d1, "a.txt.wav" := d2], "a.txt.wav.txt") == Some(d1)
  {
    var x, w := "a", ".wav";
    WavIsClean(w);
    DirtyNamePlaysOtherUpload(x, w, map["a.wav" := d1, "a.txt.wav" := d2]);
    SpellDirtyName(x, w);
  }

  lemma SpellDirtyName(x: string, w: string)
    requires x == "a" && w == ".wav"
    ensures x + TranscriptSuffix + w + TranscriptSuffix == "a.txt.wav.txt" && x + w == "a.wav"
  {
  }

  lemma WavIsClean(w: string)
    requires w == ".wav"
    ensures !Contains(w, TranscriptSuffix)
  {
    forall i | 0 <= i
      ensures !OccursAt(w, TranscriptSuffix, i)
    {
      if i == 0 {
        assert w[..4][1] != TranscriptSuffix[1];
      }
    }
  }
}
