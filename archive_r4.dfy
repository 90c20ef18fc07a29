/** Archives/appR4.py: the Flask form of appR1.py, whose POST handler renders the video
    instead of a page. It reads the unpadded `surah_N.json`, composes the verses by key,
    takes the first `NNN*.mp3` of the reciter's folder whole, loops the background only
    when it is shorter than the recitation, and gives each verse an equal slot. */
module ArchiveR4 {
  import opened Outcomes
  import opened PyText
  import opened Selection
  import opened Pairing
  import opened Timing
  import opened Naming
  import opened Clips
  import ArchiveR1

  /** A POST to `/`, as a value. The form and its whitelists are those of appR1.py.
      `arabic` and `translations` map the files present in the Arabic and translation
      folders to their parsed JSON, `listing` is `os.listdir` of a reciter's folder,
      `backgrounds` the files of the backgrounds folder, and `recitation` and `clip` the
      durations the video library reports for the chosen audio and background files. */
  function Post(form: ArchiveR1.Form, arabic: map<string, JsonChapter>,
                translations: map<string, JsonChapter>, listing: string -> seq<string>,
                backgrounds: set<string>, recitation: real, clip: real): Result<Video>
    requires recitation >= 0.0 && clip >= 0.0
  {
    match ValidateRequest(form.surah, form.reciter, form.background,
                          ArchiveR1.Reciters, ArchiveR1.Backgrounds)
    case Err(f) => Err(f)
    case Ok(req) => FromRequest(req, arabic, translations, listing, backgrounds, recitation, clip)
  }

  /** The steps after validation: both JSON files, the keyed composition, the folder
      scan, the background file, the loop count when the background is shorter than the
      recitation (a background of length zero under a recitation with a length divides by
      zero); then the video. */
  function FromRequest(req: Request, arabic: map<string, JsonChapter>,
                       translations: map<string, JsonChapter>, listing: string -> seq<string>,
                       backgrounds: set<string>, recitation: real, clip: real): Result<Video>
    requires recitation >= 0.0 && clip >= 0.0
  {
    var n := req.surah;
    if ArabicFile(n) !in arabic then Err(FileNotFound(ArabicFile(n)))
    else if TranslationFile(n) !in translations then Err(FileNotFound(TranslationFile(n)))
    else
      match KeyedVerses(arabic[ArabicFile(n)], translations[TranslationFile(n)])
      case Err(f) => Err(f)
      case Ok(verses) =>
        match FirstMatch(listing(req.reciter), Pad3(n), Mp3)
        case None => Err(AudioNotFound)
        case Some(file) =>
          if req.background !in backgrounds then Err(FileNotFound(req.background))
          else if clip < recitation && clip == 0.0 then Err(ZeroDivision)
          else Ok(Assemble(verses, Path(req.reciter, file), recitation, clip))
  }

  /** The whole recitation as soundtrack, the background looped only when shorter and
      trimmed to it, one caption per composed record. */
  function Assemble(verses: seq<Verse>, audioPath: string, recitation: real, clip: real): Video
    requires recitation >= 0.0 && clip >= 0.0 && (clip > 0.0 || recitation == 0.0)
  {
    ConditionalCovers(recitation, clip);
    Film(Whole(audioPath), recitation, ConditionalBackground(recitation, clip), Lines(verses), FinalVideo)
  }

  /** The handler's statements in order, with the composition, scan and caption loops. */
  method HandlePost(form: ArchiveR1.Form, arabic: map<string, JsonChapter>,
                    translations: map<string, JsonChapter>, listing: string -> seq<string>,
                    backgrounds: set<string>, recitation: real, clip: real)
    returns (r: Result<Video>)
    requires recitation >= 0.0 && clip >= 0.0
    ensures r == Post(form, arabic, translations, listing, backgrounds, recitation, clip)
  {
    var req := ValidateRequest(form.surah, form.reciter, form.background,
                               ArchiveR1.Reciters, ArchiveR1.Backgrounds);
    if req.Err? {
      return Err(req.failure);
    }
    var n := req.value.surah;
    if ArabicFile(n) !in arabic {
      return Err(FileNotFound(ArabicFile(n)));
    }
    if TranslationFile(n) !in translations {
      return Err(FileNotFound(TranslationFile(n)));
    }
    var verses := ComposeKeyed(arabic[ArabicFile(n)], translations[TranslationFile(n)]);
    if verses.Err? {
      return Err(verses.failure);
    }
    var file := FindAudio(listing(req.value.reciter), Pad3(n), Mp3);
    if file.None? {
      return Err(AudioNotFound);
    }
    if req.value.background !in backgrounds {
      return Err(FileNotFound(req.value.background));
    }
    if clip < recitation && clip == 0.0 {
      return Err(ZeroDivision);
    }
    var background := ConditionalBackground(recitation, clip);
    var captions := ScheduleCaptions(Lines(verses.value), recitation);
    ConditionalCovers(recitation, clip);
    r := Ok(Video(Whole(Path(req.value.reciter, file.value)), recitation, background, captions, FinalVideo));
  }

  /** After validation, a video is written exactly when both JSON files exist, the keyed
      composition succeeds, some listed file matches, the background file exists and the
      background is not of length zero under a recitation with a length; a chapter
      without verses is no obstacle. The KeyError of a chapter without a `verse` object
      and the division by a background of length zero escape as a 500; every other stop
      answers 404. */
  lemma RequestStops(req: Request, arabic: map<string, JsonChapter>,
                     translations: map<string, JsonChapter>, listing: string -> seq<string>,
                     backgrounds: set<string>, recitation: real, clip: real)
    requires recitation >= 0.0 && clip >= 0.0
    ensures FromRequest(req, arabic, translations, listing, backgrounds, recitation, clip).Ok? <==>
              ArabicFile(req.surah) in arabic && TranslationFile(req.surah) in translations
              && KeyedVerses(arabic[ArabicFile(req.surah)], translations[TranslationFile(req.surah)]).Ok?
              && FirstMatch(listing(req.reciter), Pad3(req.surah), Mp3).Some?
              && req.background in backgrounds
              && !(clip == 0.0 && recitation > 0.0)
    ensures var r := FromRequest(req, arabic, translations, listing, backgrounds, recitation, clip);
            r.Err? ==> (HttpStatus(r.failure) == 500 <==> r.failure in {MissingKey, ZeroDivision})
                       && HttpStatus(r.failure) in {404, 500}
  {
  }

  /** A failed POST answers 400 exactly when validation rejects the form. */
  lemma PostStatus(form: ArchiveR1.Form, arabic: map<string, JsonChapter>,
                   translations: map<string, JsonChapter>, listing: string -> seq<string>,
                   backgrounds: set<string>, recitation: real, clip: real)
    requires recitation >= 0.0 && clip >= 0.0
    ensures var r := Post(form, arabic, translations, listing, backgrounds, recitation, clip);
            r.Err? && HttpStatus(r.failure) == 400 <==>
              ValidateRequest(form.surah, form.reciter, form.background,
                              ArchiveR1.Reciters, ArchiveR1.Backgrounds).Err?
  {
    var v := ValidateRequest(form.surah, form.reciter, form.background,
                             ArchiveR1.Reciters, ArchiveR1.Backgrounds);
    if v.Ok? {
      RequestStops(v.value, arabic, translations, listing, backgrounds, recitation, clip);
    }
  }

  /** What a video written for `req` shows: the whole file of the reciter's folder that the
      scan found; a background that is the clip once when it is at least as long as the
      recitation, and otherwise the looped copies trimmed to the recitation; one caption
      per composed record (verse numbers 1..count of the Arabic object), none at
      all for a chapter without verses. */
  ghost predicate Shows(v: Video, req: Request, arabic: map<string, JsonChapter>,
                        translations: map<string, JsonChapter>, listing: string -> seq<string>,
                        recitation: real, clip: real)
  {
    && recitation >= 0.0 && clip >= 0.0 && (clip > 0.0 || recitation == 0.0)
    && ArabicFile(req.surah) in arabic && TranslationFile(req.surah) in translations
    && KeyedVerses(arabic[ArabicFile(req.surah)], translations[TranslationFile(req.surah)]).Ok?
    && FirstMatch(listing(req.reciter), Pad3(req.surah), Mp3).Some?
    && Consistent(v)
    && v.audio == Whole(Path(req.reciter, FirstMatch(listing(req.reciter), Pad3(req.surah), Mp3).value))
    && v.length == recitation
    && v.background == ConditionalBackground(recitation, clip)
    && (clip >= recitation ==> |v.background.copies| == 1)
    && |v.captions| == Max(0, Count(arabic[ArabicFile(req.surah)]))
    && (forall k :: 0 <= k < |v.captions| ==>
          v.captions[k].item
          == Line(CaptionText(KeyedVerses(arabic[ArabicFile(req.surah)],
                                          translations[TranslationFile(req.surah)]).value[k])))
    && v.output == FinalVideo
  }

  /** A written video shows the validated chapter, as `Shows` states. */
  lemma PostProduces(form: ArchiveR1.Form, arabic: map<string, JsonChapter>,
                     translations: map<string, JsonChapter>, listing: string -> seq<string>,
                     backgrounds: set<string>, recitation: real, clip: real)
    requires recitation >= 0.0 && clip >= 0.0
    requires Post(form, arabic, translations, listing, backgrounds, recitation, clip).Ok?
    ensures ValidateRequest(form.surah, form.reciter, form.background,
                            ArchiveR1.Reciters, ArchiveR1.Backgrounds).Ok?
    ensures Shows(Post(form, arabic, translations, listing, backgrounds, recitation, clip).value,
                  ValidateRequest(form.surah, form.reciter, form.background,
                                  ArchiveR1.Reciters, ArchiveR1.Backgrounds).value,
                  arabic, translations, listing, recitation, clip)
  {
    var req := ValidateRequest(form.surah, form.reciter, form.background,
                               ArchiveR1.Reciters, ArchiveR1.Backgrounds).value;
    RequestProduces(req, arabic, translations, listing, backgrounds, recitation, clip);
  }

  lemma RequestProduces(req: Request, arabic: map<string, JsonChapter>,
                        translations: map<string, JsonChapter>, listing: string -> seq<string>,
                        backgrounds: set<string>, recitation: real, clip: real)
    requires recitation >= 0.0 && clip >= 0.0
    requires FromRequest(req, arabic, translations, listing, backgrounds, recitation, clip).Ok?
    ensures Shows(FromRequest(req, arabic, translations, listing, backgrounds, recitation, clip).value,
                  req, arabic, translations, listing, recitation, clip)
  {
    var verses := KeyedVerses(arabic[ArabicFile(req.surah)], translations[TranslationFile(req.surah)]).value;
    var file := FirstMatch(listing(req.reciter), Pad3(req.surah), Mp3).value;
    AssembleShows(verses, Path(req.reciter, file), recitation, clip);
  }

  lemma AssembleShows(verses: seq<Verse>, audioPath: string, recitation: real, clip: real)
    requires recitation >= 0.0 && clip >= 0.0 && (clip > 0.0 || recitation == 0.0)
    ensures var v := Assemble(verses, audioPath, recitation, clip);
            |v.captions| == |verses|
            && (forall k :: 0 <= k < |verses| ==> v.captions[k].item == Line(CaptionText(verses[k])))
            && (clip >= recitation ==> |v.background.copies| == 1)
  {
  }
}
