/**
  How a transcript file is named after its audio file, and how the page
  recovers the audio file name from a transcript file name.
 */
module Naming {
  import opened Strings
  import Paths

  /** The suffix that marks a transcript file. */
  const TranscriptSuffix: string := ".txt"

  /** A directory entry the listing treats as a transcript. */
  predicate IsTranscriptFile(entry: string) {
    EndsWith(entry, TranscriptSuffix)
  }

  /** The transcript file name for the audio stored at `audioPath`: its basename plus ".txt". */
  function TranscriptName(audioPath: string): (name: string)
    ensures IsTranscriptFile(name)
    ensures '/' !in name
    ensures name[..|name| - |TranscriptSuffix|] == Paths.Basename(audioPath)
  {
    var base := Paths.Basename(audioPath);
    assert (base + TranscriptSuffix)[..|base|] == base;
    base + TranscriptSuffix
  }

  /**
    The audio file name the page derives from a transcript file name: every
    ".txt" in it is deleted, not only the trailing one.
   */
  function AudioNameOf(transcriptName: string): (audioName: string)
    ensures |audioName| <= |transcriptName|
    ensures !Contains(transcriptName, TranscriptSuffix) ==> audioName == transcriptName
    ensures IsTranscriptFile(transcriptName)
            && !Contains(transcriptName[..|transcriptName| - |TranscriptSuffix|], TranscriptSuffix)
            ==> audioName == transcriptName[..|transcriptName| - |TranscriptSuffix|]
  {
    if IsTranscriptFile(transcriptName) then
      var stem := transcriptName[..|transcriptName| - |TranscriptSuffix|];
      assert stem + TranscriptSuffix == transcriptName;
      if !Contains(stem, TranscriptSuffix) then
        RecoverCleanName(stem);
        ReplaceAll(transcriptName, TranscriptSuffix, "")
      else
        ReplaceAll(transcriptName, TranscriptSuffix, "")
    else
      ReplaceAll(transcriptName, TranscriptSuffix, "")
  }

  /** ".txt" has no proper border, so a clean name followed by ".tx" is still clean. */
  lemma CleanBeforeSuffix(x: string)
    requires !Contains(x, TranscriptSuffix)
    ensures !Contains(x + TranscriptSuffix[..3], TranscriptSuffix)
  {
    var t := x + TranscriptSuffix[..3];
    forall i | 0 <= i
      ensures !OccursAt(t, TranscriptSuffix, i)
    {
      if i + 4 <= |t| {
        if i + 4 <= |x| {
          assert t[i..i + 4] == x[i..i + 4];
          assert !OccursAt(x, TranscriptSuffix, i);
        } else {
          assert t[i..i + 4][|x| - i] == t[|x|] == '.';
        }
      }
    }
  }

  /** Deleting every ".txt" from `x + ".txt" + w + ".txt"` leaves `x + w` when both parts are clean. */
  lemma DeleteSuffixTwice(x: string, w: string)
    requires !Contains(x, TranscriptSuffix) && !Contains(w, TranscriptSuffix)
    ensures ReplaceAll(x + TranscriptSuffix + (w + TranscriptSuffix), TranscriptSuffix, "") == x + w
  {
    CleanBeforeSuffix(x);
    ReplaceAllStep(x, TranscriptSuffix, w + TranscriptSuffix, "");
    RecoverCleanName(w);
    DropEmpty(x, ReplaceAll(x + TranscriptSuffix + (w + TranscriptSuffix), TranscriptSuffix, ""),
      ReplaceAll(w + TranscriptSuffix, TranscriptSuffix, ""), w);
  }

  /** The audio name recovered from the transcript of `x + ".txt" + w`, for clean `x` and `w`. */
  lemma AudioNameOfDirty(x: string, w: string)
    requires !Contains(x, TranscriptSuffix) && !Contains(w, TranscriptSuffix)
    ensures AudioNameOf(x + TranscriptSuffix + w + TranscriptSuffix) == x + w
  {
    Regroup(x, TranscriptSuffix, w);
    DeleteSuffixTwice(x, w);
  }

  lemma Regroup(x: string, t: string, w: string)
    ensures x + t + w + t == x + t + (w + t)
  {
  }

  lemma DropEmpty(x: string, whole: string, tail: string, w: string)
    requires whole == x + "" + tail && tail == w
    ensures whole == x + w
  {
    assert x + "" == x;
  }

  /** Deleting every ".txt" from an audio name without ".txt" plus the suffix gives the audio name back. */
  lemma RecoverCleanName(n: string)
    requires !Contains(n, TranscriptSuffix)
    ensures ReplaceAll(n + TranscriptSuffix, TranscriptSuffix, "") == n
  {
    CleanBeforeSuffix(n);
    ReplaceAllStep(n, TranscriptSuffix, "", "");
    assert n + TranscriptSuffix + "" == n + TranscriptSuffix && n + "" + "" == n;
  }

  /** An audio name containing ".txt" loses more than the trailing suffix, so it is not recovered. */
  lemma RecoverDirtyName(n: string)
    requires Contains(n, TranscriptSuffix)
    ensures AudioNameOf(n + TranscriptSuffix) != n
  {
    var s := n + TranscriptSuffix;
    var i :| OccursAt(n, TranscriptSuffix, i);
    assert s[i..i + 4] == n[i..i + 4];
    assert s[|n|..|n| + 4] == TranscriptSuffix;
    RemoveAllDropsTwo(s, TranscriptSuffix, i, |n|);
  }

  /** Recovery inverts the naming exactly for audio names free of ".txt". */
  lemma RecoverIffClean(n: string)
    ensures AudioNameOf(n + TranscriptSuffix) == n <==> !Contains(n, TranscriptSuffix)
  {
    if Contains(n, TranscriptSuffix) {
      RecoverDirtyName(n);
    } else {
      RecoverCleanName(n);
    }
  }

  /** The audio name recovered from the transcript of a plain file name, as stored by an upload. */
  lemma RecoverUploadedName(name: string)
    requires '/' !in name && !Contains(name, TranscriptSuffix)
    ensures AudioNameOf(TranscriptName(name)) == name
  {
    Paths.BasenameOfPlainName(name);
    RecoverCleanName(name);
  }

  /** "a.txt.wav" is stored as "a.txt.wav.txt", from which the page does not get "a.txt.wav" back. */
  lemma DirtyNameExample()
    ensures TranscriptName("a.txt.wav") == "a.txt.wav.txt"
    ensures AudioNameOf(TranscriptName("a.txt.wav")) != "a.txt.wav"
  {
    var n := "a.txt.wav";
    SpellExample(n);
    Paths.BasenameOfPlainName(n);
    assert TranscriptName(n) == n + TranscriptSuffix;
    RecoverDirtyName(n);
  }

  lemma SpellExample(n: string)
    requires n == "a.txt.wav"
    ensures '/' !in n && Contains(n, TranscriptSuffix)
    ensures n + TranscriptSuffix == "a.txt.wav.txt"
  {
    assert n[1..5] == TranscriptSuffix;
    assert OccursAt(n, TranscriptSuffix, 1);
  }
}
