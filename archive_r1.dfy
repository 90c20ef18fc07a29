/** Archives/appR1.py: a Flask page instead of a rendered video. The form names a chapter,
    a reciter and a background; the POST handler validates them against whitelists, reads
    the chapter's Arabic and translation objects, composes the verses by key, finds the
    reciter's `NNN-*.mp3` file and answers a page linking the audio and background routes,
    which serve a file only when its name is on the whitelist and the file exists. */
module ArchiveR1 {
  import opened Outcomes
  import opened PyText
  import opened Selection
  import opened Pairing
  import opened Naming

  const Reciters: seq<string> := ["Mishary_Rashid_Alafasy", "Yasir_AlDosari", "Idris_Akbar"]

  const Backgrounds: seq<string> :=
    ["nebulae.mp4", "mountain.mp4", "cliffs.mp4", "junct.mp4", "sea.mp4",
     "track.mp4", "sky.mp4", "snow.mp4", "solar.mp4"]

  /** The three form fields as `request.form.get` returns them. */
  datatype Form = Form(surah: Option<string>, reciter: Option<string>, background: Option<string>)

  /** What the answered page shows: heading, audio source, background image and verses. */
  datatype Page = Page(surah: int, reciter: string, audioUrl: string, backgroundUrl: string,
                       verses: seq<Verse>)

  /** `f"{n:03d}-"`: the prefix a chapter's recitation file starts with. */
  function DashedPrefix(n: int): string
  {
    Pad3(n) + "-"
  }

  // ---------------------------------------------------------------- the selection form

  /** A reciter's name as the form shows it: every underscore becomes a space. */
  function Spaced(s: string): (r: string)
    ensures |r| == |s| && '_' !in r
    ensures forall i :: 0 <= i < |s| ==> r[i] == if s[i] == '_' then ' ' else s[i]
  {
    seq(|s|, i requires 0 <= i < |s| => if s[i] == '_' then ' ' else s[i])
  }

  /** The reciter options of the GET form: the submitted value and the label shown. */
  function ReciterOptions(): (r: seq<(string, string)>)
    ensures |r| == |Reciters|
    ensures forall i :: 0 <= i < |r| ==> r[i].0 == Reciters[i] && r[i].1 == Spaced(Reciters[i])
  {
    seq(|Reciters|, i requires 0 <= i < |Reciters| => (Reciters[i], Spaced(Reciters[i])))
  }

  /** Every combination the GET form offers, with a chapter number in 1..114 written out,
      passes the POST handler's validation. */
  lemma FormChoicesValidate(n: int, i: int, j: int)
    requires 1 <= n <= MaxSurah && 0 <= i < |ReciterOptions()| && 0 <= j < |Backgrounds|
    ensures ValidateRequest(Some(IntToString(n)), Some(ReciterOptions()[i].0), Some(Backgrounds[j]),
                            Reciters, Backgrounds)
            == Ok(Request(n, Reciters[i], Backgrounds[j]))
  {
    SurahFieldAccepts(n);
  }

  // ---------------------------------------------------------------- the POST handler

  /** A POST to `/`, as a value. `arabic` and `translations` map the files present in the
      Arabic and translation folders to their parsed JSON; `listing` is `os.listdir` of a
      reciter's folder. */
  function Post(form: Form, arabic: map<string, JsonChapter>, translations: map<string, JsonChapter>,
                listing: string -> seq<string>): Result<Page>
  {
    match ValidateRequest(form.surah, form.reciter, form.background, Reciters, Backgrounds)
    case Err(f) => Err(f)
    case Ok(req) => FromRequest(req, arabic, translations, listing)
  }

  /** The steps after validation: both JSON files, the keyed composition, the folder scan. */
  function FromRequest(req: Request, arabic: map<string, JsonChapter>,
                       translations: map<string, JsonChapter>, listing: string -> seq<string>)
    : Result<Page>
  {
    var n := req.surah;
    if PaddedArabicFile(n) !in arabic then Err(FileNotFound(PaddedArabicFile(n)))
    else if TranslationFile(n) !in translations then Err(FileNotFound(TranslationFile(n)))
    else
      match KeyedVerses(arabic[PaddedArabicFile(n)], translations[TranslationFile(n)])
      case Err(f) => Err(f)
      case Ok(verses) =>
        match FirstMatch(listing(req.reciter), DashedPrefix(n), Mp3)
        case None => Err(AudioNotFound)
        case Some(file) =>
          Ok(Page(n, req.reciter, AudioRoute(req.reciter, file), BackgroundRoute(req.background), verses))
  }

  /** The handler's statements in order, with the composition loop and the folder scan. */
  method HandlePost(form: Form, arabic: map<string, JsonChapter>,
                    translations: map<string, JsonChapter>, listing: string -> seq<string>)
    returns (r: Result<Page>)
    ensures r == Post(form, arabic, translations, listing)
  {
    var req := ValidateRequest(form.surah, form.reciter, form.background, Reciters, Backgrounds);
    if req.Err? {
      return Err(req.failure);
    }
    var n := req.value.surah;
    var arabicName := PaddedArabicFile(n);
    if arabicName !in arabic {
      return Err(FileNotFound(arabicName));
    }
    var translationName := TranslationFile(n);
    if translationName !in translations {
      return Err(FileNotFound(translationName));
    }
    var verses := ComposeKeyed(arabic[arabicName], translations[translationName]);
    if verses.Err? {
      return Err(verses.failure);
    }
    var file := FindAudio(listing(req.value.reciter), DashedPrefix(n), Mp3);
    if file.None? {
      return Err(AudioNotFound);
    }
    r := Ok(Page(n, req.value.reciter, AudioRoute(req.value.reciter, file.value),
                 BackgroundRoute(req.value.background), verses.value));
  }

  /** After validation, a page is answered exactly when both JSON files exist, the keyed
      composition succeeds and some listed file matches; a missing file or recitation
      answers 404, and only the KeyError of a chapter without a `verse` object escapes as
      a 500. */
  lemma RequestStops(req: Request, arabic: map<string, JsonChapter>,
                     translations: map<string, JsonChapter>, listing: string -> seq<string>)
    ensures FromRequest(req, arabic, translations, listing).Ok? <==>
              PaddedArabicFile(req.surah) in arabic && TranslationFile(req.surah) in translations
              && KeyedVerses(arabic[PaddedArabicFile(req.surah)], translations[TranslationFile(req.surah)]).Ok?
              && FirstMatch(listing(req.reciter), DashedPrefix(req.surah), Mp3).Some?
    ensures FromRequest(req, arabic, translations, listing).Err? ==>
              (HttpStatus(FromRequest(req, arabic, translations, listing).failure) == 500 <==>
                 PaddedArabicFile(req.surah) in arabic && TranslationFile(req.surah) in translations
                 && KeyedVerses(arabic[PaddedArabicFile(req.surah)], translations[TranslationFile(req.surah)]).Err?)
    ensures FromRequest(req, arabic, translations, listing).Err? ==>
              HttpStatus(FromRequest(req, arabic, translations, listing).failure) in {404, 500}
  {
  }

  /** A failed POST answers 400 exactly when validation rejects the form. */
  lemma PostStatus(form: Form, arabic: map<string, JsonChapter>,
                   translations: map<string, JsonChapter>, listing: string -> seq<string>)
    ensures var r := Post(form, arabic, translations, listing);
            r.Err? && HttpStatus(r.failure) == 400 <==>
              ValidateRequest(form.surah, form.reciter, form.background, Reciters, Backgrounds).Err?
  {
    var v := ValidateRequest(form.surah, form.reciter, form.background, Reciters, Backgrounds);
    if v.Ok? {
      RequestStops(v.value, arabic, translations, listing);
    }
  }

  /** An answered page is for the validated chapter and reciter; it lists one record per
      verse number 1..count of the Arabic object; its audio link names the first file of
      the reciter's folder, in listing order, that starts with the chapter's three digits
      and a dash and ends in `.mp3`; its background link names the form's background. */
  lemma PostProduces(form: Form, arabic: map<string, JsonChapter>,
                     translations: map<string, JsonChapter>, listing: string -> seq<string>)
    requires Post(form, arabic, translations, listing).Ok?
    ensures ValidateRequest(form.surah, form.reciter, form.background, Reciters, Backgrounds).Ok?
    ensures Answers(Post(form, arabic, translations, listing).value,
                    ValidateRequest(form.surah, form.reciter, form.background, Reciters, Backgrounds).value,
                    arabic, translations, listing)
  {
    var req := ValidateRequest(form.surah, form.reciter, form.background, Reciters, Backgrounds).value;
    RequestProduces(req, arabic, translations, listing);
  }

  /** What a page answering the validated request `req` shows. */
  ghost predicate Answers(page: Page, req: Request, arabic: map<string, JsonChapter>,
                          translations: map<string, JsonChapter>, listing: string -> seq<string>)
  {
    && page.surah == req.surah && page.reciter == req.reciter
    && PaddedArabicFile(req.surah) in arabic && TranslationFile(req.surah) in translations
    && KeyedVerses(arabic[PaddedArabicFile(req.surah)], translations[TranslationFile(req.surah)]).Ok?
    && page.verses == KeyedVerses(arabic[PaddedArabicFile(req.surah)],
                                  translations[TranslationFile(req.surah)]).value
    && FirstMatch(listing(req.reciter), DashedPrefix(req.surah), Mp3).Some?
    && page.audioUrl == AudioRoute(req.reciter, FirstMatch(listing(req.reciter), DashedPrefix(req.surah), Mp3).value)
    && page.backgroundUrl == BackgroundRoute(req.background)
  }

  lemma RequestProduces(req: Request, arabic: map<string, JsonChapter>,
                        translations: map<string, JsonChapter>, listing: string -> seq<string>)
    requires FromRequest(req, arabic, translations, listing).Ok?
    ensures Answers(FromRequest(req, arabic, translations, listing).value, req, arabic, translations, listing)
  {
  }

  /** The recitation file a page links starts with the chapter's number, which parses back
      to the chapter, then a dash, and ends in `.mp3`. */
  lemma LinkedFileNamesChapter(listing: seq<string>, n: int)
    requires 1 <= n <= MaxSurah
    requires FirstMatch(listing, DashedPrefix(n), Mp3).Some?
    ensures var file := FirstMatch(listing, DashedPrefix(n), Mp3).value;
            file in listing && ParseInt(file[..3]) == Some(n) && file[3] == '-' && EndsWith(file, Mp3)
  {
    var file := FirstMatch(listing, DashedPrefix(n), Mp3).value;
    var p := DashedPrefix(n);
    Pad3Width(n);
    assert |p| == 4 && p[..3] == Pad3(n) && p[3] == '-';
    assert StartsWith(file, p);
    assert file[..3] == Pad3(n) by {
      assert file[..3] == file[..4][..3];
    }
    assert file[3] == file[..4][3];
    Pad3Parses(n);
  }

  // ---------------------------------------------------------------- the file routes

  /** `GET /audio/<reciter>/<filename>`: `recitations` holds the files present, as paths
      under the recitations folder. */
  function ServeAudio(reciter: string, filename: string, recitations: set<string>): (r: Result<string>)
    ensures r.Ok? <==> reciter in Reciters && Path(reciter, filename) in recitations
    ensures r.Ok? ==> r.value == Path(reciter, filename)
    ensures r.Err? ==> HttpStatus(r.failure) == 404
  {
    if reciter !in Reciters then Err(NotListed)
    else if Path(reciter, filename) !in recitations then Err(FileNotFound(Path(reciter, filename)))
    else Ok(Path(reciter, filename))
  }

  /** `GET /backgrounds/<filename>`: `present` holds the files of the backgrounds folder. */
  function ServeBackground(filename: string, present: set<string>): (r: Result<string>)
    ensures r.Ok? <==> filename in Backgrounds && filename in present
    ensures r.Ok? ==> r.value == filename
    ensures r.Err? ==> HttpStatus(r.failure) == 404
  {
    if filename !in Backgrounds then Err(NotListed)
    else if filename !in present then Err(FileNotFound(filename))
    else Ok(filename)
  }

  /** Which of the two file routes a URL path reaches: each `<name>` part is one non-empty
      path segment. */
  datatype Route = AudioFileRoute(reciter: string, filename: string)
                 | BackgroundFileRoute(filename: string)
                 | Unrouted

  function RouteOf(url: string): (r: Route)
    ensures r.AudioFileRoute? ==> url == AudioRoute(r.reciter, r.filename)
    ensures r.BackgroundFileRoute? ==> url == BackgroundRoute(r.filename)
  {
    var parts := Split(url, '/');
    if |parts| == 4 && parts[0] == "" && parts[1] == "audio" && parts[2] != "" && parts[3] != "" then
      SplitJoin(url, '/');
      assert Join(parts, '/') == AudioRoute(parts[2], parts[3]) by { JoinFour(parts) ; }
      AudioFileRoute(parts[2], parts[3])
    else if |parts| == 3 && parts[0] == "" && parts[1] == "backgrounds" && parts[2] != "" then
      SplitJoin(url, '/');
      assert Join(parts, '/') == BackgroundRoute(parts[2]) by { JoinThree(parts); }
      BackgroundFileRoute(parts[2])
    else Unrouted
  }

  lemma JoinFour(parts: seq<string>)
    requires |parts| == 4 && parts[0] == "" && parts[1] == "audio"
    ensures Join(parts, '/') == AudioRoute(parts[2], parts[3])
  {
    assert Join(parts[2..], '/') == parts[2] + "/" + parts[3];
    assert Join(parts[1..], '/') == "audio" + "/" + Join(parts[2..], '/');
  }

  lemma JoinThree(parts: seq<string>)
    requires |parts| == 3 && parts[0] == "" && parts[1] == "backgrounds"
    ensures Join(parts, '/') == BackgroundRoute(parts[2])
  {
    assert Join(parts[1..], '/') == "backgrounds" + "/" + parts[2];
  }

  /** The audio link of an answered page reaches the audio route with the reciter and the
      file it was built from; when every entry of the reciter's listing is a file present
      under the recitations folder, that file is served. */
  lemma AudioLinkServed(form: Form, arabic: map<string, JsonChapter>,
                        translations: map<string, JsonChapter>, listing: string -> seq<string>,
                        recitations: set<string>)
    requires Post(form, arabic, translations, listing).Ok?
    requires forall r, f :: r in Reciters && f in listing(r) ==> '/' !in f
    ensures var page := Post(form, arabic, translations, listing).value;
            var file := FirstMatch(listing(page.reciter), DashedPrefix(page.surah), Mp3).value;
            RouteOf(page.audioUrl) == AudioFileRoute(page.reciter, file)
            && ((forall f :: f in listing(page.reciter) ==> Path(page.reciter, f) in recitations) ==>
                  ServeAudio(page.reciter, file, recitations) == Ok(Path(page.reciter, file)))
  {
    PostProduces(form, arabic, translations, listing);
    var page := Post(form, arabic, translations, listing).value;
    var file := FirstMatch(listing(page.reciter), DashedPrefix(page.surah), Mp3).value;
    LinkedFileNamesChapter(listing(page.reciter), page.surah);
    ReciterNamesPlain(page.reciter);
    AudioRouteRoutes(page.reciter, file);
  }

  /** An audio link built from plain names routes back to those names. */
  lemma AudioRouteRoutes(reciter: string, file: string)
    requires '/' !in reciter && '/' !in file && reciter != "" && file != ""
    ensures RouteOf(AudioRoute(reciter, file)) == AudioFileRoute(reciter, file)
  {
    AudioRouteSplits(reciter, file);
  }

  /** The background link of an answered page reaches the background route with the
      form's background, which is served exactly when its file is present. */
  lemma BackgroundLinkServed(form: Form, arabic: map<string, JsonChapter>,
                             translations: map<string, JsonChapter>, listing: string -> seq<string>,
                             present: set<string>)
    requires Post(form, arabic, translations, listing).Ok?
    ensures var req := ValidateRequest(form.surah, form.reciter, form.background, Reciters, Backgrounds).value;
            var page := Post(form, arabic, translations, listing).value;
            RouteOf(page.backgroundUrl) == BackgroundFileRoute(req.background)
            && (ServeBackground(req.background, present).Ok? <==> req.background in present)
  {
    PostProduces(form, arabic, translations, listing);
    var req := ValidateRequest(form.surah, form.reciter, form.background, Reciters, Backgrounds).value;
    BackgroundNamesPlain(req.background);
    BackgroundRouteSplits(req.background);
  }

  /** No whitelisted reciter or background name is empty or contains a path separator. */
  lemma ReciterNamesPlain(r: string)
    requires r in Reciters
    ensures '/' !in r && r != ""
  {
  }

  lemma BackgroundNamesPlain(b: string)
    requires b in Backgrounds
    ensures '/' !in b && b != ""
  {
  }
}
