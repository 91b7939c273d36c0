/**
 * The transcription step: the file-extension heuristic on the media content
 * type, and how the outcomes of the download and of the speech-to-text call
 * become the transcript text.
 */
module Media {
  import opened Optional
  import opened Text

  /** The outcome of the authenticated media download. */
  datatype Download = Raised | Status(code: int)

  /** The file extension chosen from the content type by substring tests:
      "mp4" or "m4a" first, then "mp3", otherwise the Ogg default. */
  function Extension(contentType: string): (ext: string)
    ensures ext == ".m4a" <==> Mentions(contentType, "mp4") || Mentions(contentType, "m4a")
    ensures ext == ".mp3" <==>
      !Mentions(contentType, "mp4") && !Mentions(contentType, "m4a") && Mentions(contentType, "mp3")
    ensures ext == ".ogg" <==>
      !Mentions(contentType, "mp4") && !Mentions(contentType, "m4a") && !Mentions(contentType, "mp3")
  {
    if Contains(contentType, "mp4") || Contains(contentType, "m4a") then ".m4a"
    else if Contains(contentType, "mp3") then ".mp3"
    else ".ogg"
  }

  /** A string lacking one of `t`'s characters cannot contain `t`. */
  lemma MissingCharacter(s: string, t: string, c: char)
    requires c in t && c !in s
    ensures !Mentions(s, t)
  {
  }

  /** Typical content types: the iPhone and Android voice-note types, and the
      standard MP3 type, which lacks the letters "mp3" and falls through to the
      Ogg default. */
  lemma ExtensionExamples()
    ensures Extension("audio/mp4") == ".m4a"
    ensures Extension("audio/x-m4a") == ".m4a"
    ensures Extension("audio/mp3") == ".mp3"
    ensures Extension("audio/ogg") == ".ogg"
    ensures Extension("audio/mpeg") == ".ogg"
  {
    assert OccursAt("audio/mp4", "mp4", 6);
    assert OccursAt("audio/x-m4a", "m4a", 8);
    MissingCharacter("audio/mp3", "mp4", '4');
    MissingCharacter("audio/mp3", "m4a", '4');
    assert OccursAt("audio/mp3", "mp3", 6);
    MissingCharacter("audio/ogg", "mp4", 'm');
    MissingCharacter("audio/ogg", "m4a", 'm');
    MissingCharacter("audio/ogg", "mp3", 'm');
    MissingCharacter("audio/mpeg", "mp4", '4');
    MissingCharacter("audio/mpeg", "m4a", '4');
    MissingCharacter("audio/mpeg", "mp3", '3');
  }

  /** "audio/mpeg3" holds the letters m, p and 3 but not the run "mp3", so it
      also gets the Ogg default. */
  lemma MpegThreeIsOgg()
    ensures Extension("audio/mpeg3") == ".ogg"
  {
    var s := "audio/mpeg3";
    MissingCharacter(s, "mp4", '4');
    MissingCharacter(s, "m4a", '4');
    forall i | 0 <= i <= 8 ensures !OccursAt(s, "mp3", i) {
      if i == 8 {
        assert s[i..i + 3][1] == 'g';
      } else {
        assert s[i + 2] in s[..10];
        assert s[i..i + 3][2] == s[i + 2] != '3';
      }
    }
  }

  /** The transcript `transcrever_audio` returns. Every failure — no AI
      client, a missing content type (the substring test raises), a download
      that raises or answers other than 200, a transcription call that raises —
      yields the empty text; otherwise the service's text is returned as is. */
  function Transcribe(clientReady: bool, contentType: Option<string>, download: Download,
                      transcript: Option<string>): (text: string)
    ensures text != "" ==>
      clientReady && contentType.Some? && download == Status(200) && transcript == Some(text)
    ensures clientReady && contentType.Some? && download == Status(200) && transcript.Some? ==>
      text == transcript.value
  {
    if !clientReady then ""
    else match contentType
      case None => ""
      case Some(_) =>
        if download != Status(200) then ""
        else match transcript
          case None => ""
          case Some(t) => t
  }
}
