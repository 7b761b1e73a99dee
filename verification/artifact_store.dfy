/**
  The two folders the script writes to, each abstracted as a map from a file
  name inside the folder to the file's content. Opening a file with "w" or
  "wb" replaces whatever the name held before.
 */
module ArtifactStore {
  import opened Wrappers
  import Paths
  import opened Naming

  newtype byte = x: int | 0 <= x < 256

  type Bytes = seq<byte>

  const AudioFolder: string := "audio_files"
  const TranscriptionsFolder: string := "transcriptions"

  /** Contents of "audio_files" and "transcriptions". */
  datatype Store = Store(audio: map<string, Bytes>, transcripts: map<string, string>)

  /** Why the speech model produced no text; the script lets the exception propagate. */
  datatype EngineError = InferenceFailure

  /** The speech model, seen from outside: audio in, German text or a failure out. */
  type Engine = Bytes -> Result<string, EngineError>

  /** `os.listdir`: every name in the folder exactly once, in an order left open. */
  ghost predicate EnumeratesFolder<V>(entries: seq<string>, folder: map<string, V>) {
    forall e :: multiset(entries)[e] == if e in folder then 1 else 0
  }

  /** Writing `content` under `key`: the key holds exactly the new content, every other key is untouched. */
  function Write<V>(folder: map<string, V>, key: string, content: V): (r: map<string, V>)
    ensures r.Keys == folder.Keys + {key}
    ensures r[key] == content
    ensures forall k :: k in folder && k != key ==> r[k] == folder[k]
  {
    folder[key := content]
  }

  /** A second write to the same key makes the first invisible. */
  lemma WriteLastWins<V>(folder: map<string, V>, key: string, first: V, second: V)
    ensures Write(Write(folder, key, first), key, second) == Write(folder, key, second)
  {
  }

  datatype SavedAudio = SavedAudio(store: Store, path: string)

  /** `save_audio`: the upload's bytes under its own name in the audio folder. */
  function SaveAudio(s: Store, name: string, data: Bytes): (r: SavedAudio)
    ensures r.store.audio == Write(s.audio, name, data)
    ensures r.store.transcripts == s.transcripts
    ensures Paths.Basename(r.path) == Paths.Basename(name)
  {
    Paths.BasenameOfJoin(AudioFolder, name);
    SavedAudio(Store(Write(s.audio, name, data), s.transcripts), Paths.Join(AudioFolder, name))
  }

  datatype Transcribed = Transcribed(store: Store, text: string, path: string)

  /**
    `transcribe_audio`, given what the model returned for the audio at
    `audioPath`: on success the text is stored under the transcript name;
    on failure nothing is written and the failure is passed on.
   */
  function TranscribeAudio(s: Store, audioPath: string, inference: Result<string, EngineError>)
    : (r: Result<Transcribed, EngineError>)
    ensures inference.Failure? ==> r == Failure(inference.error)
    ensures inference.Success? ==>
      && r.Success?
      && r.value.text == inference.value
      && r.value.store.audio == s.audio
      && r.value.store.transcripts == Write(s.transcripts, TranscriptName(audioPath), inference.value)
      && Paths.Basename(r.value.path) == TranscriptName(audioPath)
  {
    match inference
    case Failure(e) => Failure(e)
    case Success(text) =>
      var name := TranscriptName(audioPath);
      Paths.BasenameOfJoin(TranscriptionsFolder, name);
      Paths.BasenameOfPlainName(name);
      Success(Transcribed(Store(s.audio, Write(s.transcripts, name, text)), text, Paths.Join(TranscriptionsFolder, name)))
  }

  datatype UploadOutcome = UploadOutcome(store: Store, audioPath: string, transcription: Result<string, EngineError>)

  /**
    One upload: save the audio, run the model on the saved file, save the
    transcript. The audio stays saved when the model fails.
   */
  function Upload(s: Store, name: string, data: Bytes, engine: Engine): (r: UploadOutcome)
    ensures r.store.audio == Write(s.audio, name, data)
    ensures r.transcription == engine(data)
    ensures r.transcription.Success? ==>
      r.store.transcripts == Write(s.transcripts, Paths.Basename(name) + TranscriptSuffix, r.transcription.value)
    ensures r.transcription.Failure? ==> r.store.transcripts == s.transcripts
  {
    var saved := SaveAudio(s, name, data);
    var inference := engine(saved.store.audio[name]);
    var written := TranscribeAudio(saved.store, saved.path, inference);
    assert TranscriptName(saved.path) == Paths.Basename(name) + TranscriptSuffix;
    if written.Success? then
      UploadOutcome(written.value.store, saved.path, Success(written.value.text))
    else
      UploadOutcome(saved.store, saved.path, Failure(written.error))
  }

  /**
    Uploading the same name again overwrites both artifacts: when the second
    transcription succeeds, no trace of the first upload remains.
   */
  lemma LaterUploadWins(s: Store, name: string, first: Bytes, second: Bytes, engine: Engine)
    requires engine(second).Success?
    ensures Upload(Upload(s, name, first, engine).store, name, second, engine).store
         == Upload(s, name, second, engine).store
  {
    var once := Upload(s, name, first, engine).store;
    var key := Paths.Basename(name) + TranscriptSuffix;
    var text := engine(second).value;
    if engine(first).Success? {
      WriteLastWins(s.transcripts, key, engine(first).value, text);
    }
    WriteLastWins(s.audio, name, first, second);
  }
}
