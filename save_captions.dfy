/** `AcademiaSD_SaveCaption.save_dataset_caption` in nodes/save_captions.py. */
module SaveCaption {
  import opened Common
  import opened Text
  import opened PosixPath

  /** The `text_position` choice that puts the extra text first; every other value appends it. */
  const PrefixPosition := "Start (Prefix)"
  const CaptionExtension := ".txt"

  /** The caption text: trimmed extra text and trimmed caption, joined by the verbatim separator. */
  function ComposeCaption(generatedCaption: string, extraText: string, textPosition: string, separator: string): string
  {
    var extra := Strip(extraText);
    var caption := Strip(generatedCaption);
    if extra == [] then caption
    else if textPosition == PrefixPosition then extra + separator + caption
    else caption + separator + extra
  }

  /**
   * Reads the caption back out of a composed text, given the trimmed extra text: the inverse of
   * `ComposeCaption`, or `None` when the text does not carry the extra text where it belongs.
   */
  function RecoverCaption(finalText: string, extra: string, textPosition: string, separator: string): Option<string>
  {
    var n := |extra| + |separator|;
    if extra == [] then Some(finalText)
    else if textPosition == PrefixPosition then
      if extra + separator <= finalText then Some(finalText[n..]) else None
    else if n <= |finalText| && finalText[|finalText| - n..] == separator + extra then
      Some(finalText[..|finalText| - n])
    else None
  }

  /** The trimmed caption can always be recovered from the composed text. */
  lemma RecoverComposed(generatedCaption: string, extraText: string, textPosition: string, separator: string)
    ensures RecoverCaption(ComposeCaption(generatedCaption, extraText, textPosition, separator),
                           Strip(extraText), textPosition, separator) == Some(Strip(generatedCaption))
  {
    RecoverJoined(Strip(generatedCaption), Strip(extraText), textPosition, separator);
  }

  /** `RecoverCaption` undoes the join of a caption and an extra text, whatever the two are. */
  lemma RecoverJoined(caption: string, extra: string, textPosition: string, separator: string)
    ensures var t := if extra == [] then caption
                     else if textPosition == PrefixPosition then extra + separator + caption
                     else caption + separator + extra;
      RecoverCaption(t, extra, textPosition, separator) == Some(caption)
  {
    var n := |extra| + |separator|;
    if extra != [] {
      if textPosition == PrefixPosition {
        var t := extra + separator + caption;
        assert t == (extra + separator) + caption;
        assert t[n..] == caption;
      } else {
        var t := caption + separator + extra;
        assert t == caption + (separator + extra);
        assert t[|t| - n..] == separator + extra;
        assert t[..|t| - n] == caption;
      }
    }
  }

  /**
   * The composed text holds the trimmed caption, plus the separator and the trimmed extra text
   * exactly when the latter is non-empty: its length says so.
   */
  lemma ComposeCaptionLength(generatedCaption: string, extraText: string, textPosition: string, separator: string)
    ensures |ComposeCaption(generatedCaption, extraText, textPosition, separator)| ==
      |Strip(generatedCaption)| + (if Strip(extraText) == [] then 0 else |separator| + |Strip(extraText)|)
  {
  }

  /** Trimming the inputs beforehand makes no difference: the node trims them itself. */
  lemma ComposeCaptionTrimsInputs(generatedCaption: string, extraText: string, textPosition: string, separator: string)
    ensures ComposeCaption(generatedCaption, extraText, textPosition, separator) ==
      ComposeCaption(Strip(generatedCaption), Strip(extraText), textPosition, separator)
  {
    StripIdempotent(generatedCaption);
    StripIdempotent(extraText);
  }

  /** `os.path.splitext(image_path)[0] + ".txt"`: where the caption is written. */
  function CaptionPath(imagePath: string): string
  {
    SplitExt(imagePath).0 + CaptionExtension
  }

  /**
   * The caption file is the image path with its extension replaced by `.txt`: when the image has an
   * extension, or its file name is not made of dots only, `splitext` of the caption path gives back
   * the image's stem and `.txt`.
   */
  lemma CaptionPathReplacesExtension(imagePath: string)
    requires SplitExt(imagePath).1 != [] || !DotsOnly(imagePath, LastSep(imagePath) + 1, |imagePath|)
    ensures SplitExt(CaptionPath(imagePath)) == (SplitExt(imagePath).0, CaptionExtension)
    ensures imagePath == SplitExt(imagePath).0 + SplitExt(imagePath).1
  {
    var (stem, ext) := SplitExt(imagePath);
    if ext != [] {
      assert imagePath == stem + ext;
      LastIndexOfUnique(imagePath, '/', LastSep(stem)) by {
        assert forall k :: 0 <= k < |stem| ==> imagePath[k] == stem[k];
        forall k | |stem| <= k < |imagePath| ensures imagePath[k] != '/' {
          assert imagePath[k] == ext[k - |stem|];
        }
      }
      assert forall k :: 0 <= k < |stem| ==> imagePath[k] == stem[k];
    }
    assert !DotsOnly(stem, LastSep(stem) + 1, |stem|);
    SplitExtOfAppended(stem, CaptionExtension);
  }

  /** A hidden file has no extension, so its caption name keeps the whole name. */
  lemma CaptionPathExamples()
    ensures CaptionPath("dir/img.png") == "dir/img.txt"
    ensures CaptionPath("dir/.hidden") == "dir/.hidden.txt"
  {
    SplitExtExamples();
  }

  /** What the node did to the file system. */
  datatype WriteEffect =
    | NothingWritten
    | Wrote(path: string, contents: string)
    | WriteFailed(path: string)

  datatype SaveOutcome = SaveOutcome(finalSavedText: string, effect: WriteEffect)

  /**
   * The node: `pathExists` stands for `os.path.exists(image_path)` and `writeSucceeds` for the
   * `open`/`write` of the caption file raising nothing (a raised error is caught and printed).
   */
  function SaveDatasetCaption(generatedCaption: string, imagePath: string, extraText: string, textPosition: string,
                              separator: string, pathExists: bool, writeSucceeds: bool): (r: SaveOutcome)
    ensures r.finalSavedText == ComposeCaption(generatedCaption, extraText, textPosition, separator)
    ensures r.effect == NothingWritten <==> imagePath == [] || !pathExists
    ensures r.effect.Wrote? <==> imagePath != [] && pathExists && writeSucceeds
    ensures r.effect.Wrote? ==> r.effect == Wrote(CaptionPath(imagePath), r.finalSavedText)
    ensures r.effect.WriteFailed? ==> r.effect.path == CaptionPath(imagePath)
  {
    var finalText := ComposeCaption(generatedCaption, extraText, textPosition, separator);
    if imagePath == [] || !pathExists then
      SaveOutcome(finalText, NothingWritten)
    else
      var txtPath := CaptionPath(imagePath);
      if writeSucceeds then SaveOutcome(finalText, Wrote(txtPath, finalText))
      else SaveOutcome(finalText, WriteFailed(txtPath))
  }
}
