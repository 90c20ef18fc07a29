/** App/AppT7.py: the chapter is read off a label, the range text is resolved strictly,
    the verses are zipped with shaped Arabic, the recitation of the range is downloaded
    verse by verse from one fixed archive, and the background is tiled over it. */
module AppT7 {
  import opened Outcomes
  import opened PyText
  import opened Selection
  import opened Pairing
  import opened Timing
  import opened Naming
  import opened Clips

  /** The one reciter whose archive is used, as it appears in output names. */
  const Reciter: string := "Sudais"

  /** A press of the generate button, as a value. `choice` is the chosen line of
      surahs.txt, `background` the chosen background file, `shape` the reshaping and
      reordering of Arabic text for display, `fetch` what the network answers for a URL,
      `backgrounds` the files present in the backgrounds folder, `duration` what the video
      library reports for a downloaded file, `clip` the length of the background clip. */
  function Plan(choice: string, text: string, background: string, arStore: Store, enStore: Store,
                shape: string -> string, fetch: string -> Response, backgrounds: set<string>,
                duration: seq<bv8> -> real, clip: real): Result<Video>
    requires forall b :: duration(b) >= 0.0
    requires clip >= 0.0
  {
    match LabelNumber(choice)
    case Err(f) => Err(f)
    case Ok(n) =>
      var ar := Get(arStore, n);
      match StrictRange(text, |ar|)
      case Err(f) => Err(f)
      case Ok(range) =>
        FromRange(n, ar, Get(enStore, n), range, background, shape, fetch, backgrounds, duration, clip)
  }

  /** The steps after the range is resolved: zip the verses, download, open the
      background, count the loops (a background of length zero divides by zero), then time
      one caption per verse over the download (no verse divides by zero). */
  function FromRange(n: int, ar: seq<string>, en: seq<string>, range: VerseRange, background: string,
                     shape: string -> string, fetch: string -> Response, backgrounds: set<string>,
                     duration: seq<bv8> -> real, clip: real): Result<Video>
    requires range.start >= 1 && range.end >= 0
    requires forall b :: duration(b) >= 0.0
    requires clip >= 0.0
  {
    match Download(VerseUrls(UrlOf(SudaisBase, n), range.start, range.end), fetch)
    case Err(f) => Err(f)
    case Ok(bytes) =>
      if background !in backgrounds then Err(FileNotFound(background))
      else if clip == 0.0 then Err(ZeroDivision)
      else if |Selected(ar, en, range.start, range.end, shape)| == 0 then Err(ZeroDivision)
      else Ok(Assemble(n, ar, en, range, bytes, shape, duration, clip))
  }

  /** The downloaded soundtrack, the tiled background and the timed captions. */
  function Assemble(n: int, ar: seq<string>, en: seq<string>, range: VerseRange, bytes: seq<bv8>,
                    shape: string -> string, duration: seq<bv8> -> real, clip: real): Video
    requires range.start >= 1 && range.end >= 0
    requires forall b :: duration(b) >= 0.0
    requires clip > 0.0
  {
    var audio := duration(bytes);
    TiledCovers(audio, clip);
    Film(Downloaded(bytes), audio, TiledBackground(audio, clip),
         Lines(Selected(ar, en, range.start, range.end, shape)),
         RangeOutputName(n, range.start, range.end, Reciter))
  }

  /** The script's steps in order: the label, the range, then the rest. */
  method Generate(choice: string, text: string, background: string, arStore: Store, enStore: Store,
                  shape: string -> string, fetch: string -> Response, backgrounds: set<string>,
                  duration: seq<bv8> -> real, clip: real) returns (r: Result<Video>)
    requires forall b :: duration(b) >= 0.0
    requires clip >= 0.0
    ensures r == Plan(choice, text, background, arStore, enStore, shape, fetch, backgrounds, duration, clip)
  {
    var n := LabelNumber(choice);
    if n.Err? {
      return Err(n.failure);
    }
    var ar := Get(arStore, n.value);
    var range := StrictRange(text, |ar|);
    if range.Err? {
      return Err(range.failure);
    }
    r := GenerateRange(n.value, ar, Get(enStore, n.value), range.value, background, shape, fetch,
                       backgrounds, duration, clip);
  }

  /** `prepare_texts`, the download loop, the background and the caption loop. */
  method GenerateRange(n: int, ar: seq<string>, en: seq<string>, range: VerseRange, background: string,
                       shape: string -> string, fetch: string -> Response, backgrounds: set<string>,
                       duration: seq<bv8> -> real, clip: real) returns (r: Result<Video>)
    requires range.start >= 1 && range.end >= 0
    requires forall b :: duration(b) >= 0.0
    requires clip >= 0.0
    ensures r == FromRange(n, ar, en, range, background, shape, fetch, backgrounds, duration, clip)
  {
    var s, e := range.start, range.end;
    var verses := PairPositionally(PySlice(ar, s - 1, e), PySlice(en, s - 1, e), shape);
    var bytes := DownloadAudio(UrlOf(SudaisBase, n), s, e, fetch);
    if bytes.Err? {
      return Err(bytes.failure);
    }
    var audio := duration(bytes.value);
    if background !in backgrounds {
      return Err(FileNotFound(background));
    }
    if clip == 0.0 {
      return Err(ZeroDivision);
    }
    var copies := ConcatenateCopies(clip, Repetitions(audio, clip));
    if |verses| == 0 {
      return Err(ZeroDivision);
    }
    var captions := ScheduleCaptions(Lines(verses), audio);
    TiledCovers(audio, clip);
    r := Ok(Video(Downloaded(bytes.value), audio, Tiled(copies, audio), captions,
                  RangeOutputName(n, s, e, Reciter)));
  }

  /** Generation stops exactly when the label has no number, the range text has a part
      `int()` rejects, or, past the range, `RangeStops`. */
  lemma PlanStops(choice: string, text: string, background: string, arStore: Store, enStore: Store,
                  shape: string -> string, fetch: string -> Response, backgrounds: set<string>,
                  duration: seq<bv8> -> real, clip: real)
    requires forall b :: duration(b) >= 0.0
    requires clip >= 0.0
    ensures LabelNumber(choice).Err? ==>
              Plan(choice, text, background, arStore, enStore, shape, fetch, backgrounds, duration, clip).Err?
    ensures LabelNumber(choice).Ok? && StrictRange(text, |Get(arStore, LabelNumber(choice).value)|).Err? ==>
              Plan(choice, text, background, arStore, enStore, shape, fetch, backgrounds, duration, clip).Err?
    ensures LabelNumber(choice).Ok? && StrictRange(text, |Get(arStore, LabelNumber(choice).value)|).Ok? ==>
              (Plan(choice, text, background, arStore, enStore, shape, fetch, backgrounds, duration, clip).Err?
               <==> RangeStops(LabelNumber(choice).value, Get(arStore, LabelNumber(choice).value),
                               Get(enStore, LabelNumber(choice).value),
                               StrictRange(text, |Get(arStore, LabelNumber(choice).value)|).value,
                               background, fetch, backgrounds, clip))
  {
    var n := LabelNumber(choice);
    if n.Ok? {
      var ar := Get(arStore, n.value);
      var range := StrictRange(text, |ar|);
      if range.Ok? {
        assert Plan(choice, text, background, arStore, enStore, shape, fetch, backgrounds, duration, clip)
               == FromRange(n.value, ar, Get(enStore, n.value), range.value, background, shape, fetch,
                            backgrounds, duration, clip);
        FromRangeStops(n.value, ar, Get(enStore, n.value), range.value, background, shape, fetch,
                       backgrounds, duration, clip);
      }
    }
  }

  /** Past the range, a run stops exactly when some verse of the range is not answered
      with 200, the background file is missing, the background has length zero, or there
      is no verse to show: the chapter is missing from the Arabic store or the translation
      ends before the range starts. */
  predicate RangeStops(n: int, ar: seq<string>, en: seq<string>, range: VerseRange, background: string,
                       fetch: string -> Response, backgrounds: set<string>, clip: real)
  {
    Download(VerseUrls(UrlOf(SudaisBase, n), range.start, range.end), fetch).Err?
    || background !in backgrounds
    || clip == 0.0
    || |ar| == 0 || |en| < range.start
  }

  lemma FromRangeStops(n: int, ar: seq<string>, en: seq<string>, range: VerseRange, background: string,
                       shape: string -> string, fetch: string -> Response, backgrounds: set<string>,
                       duration: seq<bv8> -> real, clip: real)
    requires range.start >= 1 && range.end >= 0 && (|ar| >= 1 ==> range.start <= range.end <= |ar|)
    requires forall b :: duration(b) >= 0.0
    requires clip >= 0.0
    ensures FromRange(n, ar, en, range, background, shape, fetch, backgrounds, duration, clip).Err?
            <==> RangeStops(n, ar, en, range, background, fetch, backgrounds, clip)
  {
    SelectedPairs(ar, en, range.start, range.end, shape);
  }

  /** What a generated video shows for chapter `n` with verse lists `ar` and `en` and
      resolved `range`: caption k shows shaped Arabic verse start+k above its translation,
      as many as both slices share; the soundtrack is the bodies of the range's verse URLs
      in order, all answered with 200, and lasts what the library reports; the background
      is the clip of length `clip` looped over it; background and captions fit it; the file
      is named after chapter and range. */
  ghost predicate Shows(v: Video, n: int, ar: seq<string>, en: seq<string>, range: VerseRange,
                        shape: string -> string, fetch: string -> Response, duration: seq<bv8> -> real,
                        clip: real)
  {
    var urls := VerseUrls(UrlOf(SudaisBase, n), range.start, range.end);
    Consistent(v)
    && 1 <= range.start <= range.end <= |ar|
    && |v.captions| == Min(range.end, |en|) - range.start + 1
    && (forall k :: 0 <= k < |v.captions| ==>
          v.captions[k].item
          == Line(CaptionText(Verse(shape(ar[range.start - 1 + k]), en[range.start - 1 + k]))))
    && (forall j :: 0 <= j < |urls| ==> fetch(urls[j]).status == 200)
    && v.audio == Downloaded(Bodies(urls, fetch))
    && v.length == duration(v.audio.bytes)
    && clip > 0.0 && v.length >= 0.0 && v.background == TiledBackground(v.length, clip)
    && v.output == RangeOutputName(n, range.start, range.end, Reciter)
  }

  /** A generated video shows the resolved range of the labelled chapter. */
  lemma PlanProduces(choice: string, text: string, background: string, arStore: Store, enStore: Store,
                     shape: string -> string, fetch: string -> Response, backgrounds: set<string>,
                     duration: seq<bv8> -> real, clip: real)
    requires forall b :: duration(b) >= 0.0
    requires clip >= 0.0
    requires Plan(choice, text, background, arStore, enStore, shape, fetch, backgrounds, duration, clip).Ok?
    ensures LabelNumber(choice).Ok?
    ensures StrictRange(text, |Get(arStore, LabelNumber(choice).value)|).Ok?
    ensures background in backgrounds
    ensures Shows(Plan(choice, text, background, arStore, enStore, shape, fetch, backgrounds, duration, clip).value,
                  LabelNumber(choice).value, Get(arStore, LabelNumber(choice).value),
                  Get(enStore, LabelNumber(choice).value),
                  StrictRange(text, |Get(arStore, LabelNumber(choice).value)|).value,
                  shape, fetch, duration, clip)
  {
    var n := LabelNumber(choice).value;
    var ar := Get(arStore, n);
    var en := Get(enStore, n);
    var range := StrictRange(text, |ar|).value;
    assert Plan(choice, text, background, arStore, enStore, shape, fetch, backgrounds, duration, clip)
           == FromRange(n, ar, en, range, background, shape, fetch, backgrounds, duration, clip);
    FromRangeProduces(n, ar, en, range, background, shape, fetch, backgrounds, duration, clip);
  }

  lemma FromRangeProduces(n: int, ar: seq<string>, en: seq<string>, range: VerseRange, background: string,
                          shape: string -> string, fetch: string -> Response, backgrounds: set<string>,
                          duration: seq<bv8> -> real, clip: real)
    requires range.start >= 1 && range.end >= 0 && (|ar| >= 1 ==> range.start <= range.end <= |ar|)
    requires forall b :: duration(b) >= 0.0
    requires clip >= 0.0
    requires FromRange(n, ar, en, range, background, shape, fetch, backgrounds, duration, clip).Ok?
    ensures background in backgrounds
    ensures Shows(FromRange(n, ar, en, range, background, shape, fetch, backgrounds, duration, clip).value,
                  n, ar, en, range, shape, fetch, duration, clip)
  {
    var urls := VerseUrls(UrlOf(SudaisBase, n), range.start, range.end);
    var bytes := Download(urls, fetch).value;
    SelectedPairs(ar, en, range.start, range.end, shape);
    AssembleShows(n, ar, en, range, bytes, shape, duration, clip);
  }

  lemma AssembleShows(n: int, ar: seq<string>, en: seq<string>, range: VerseRange, bytes: seq<bv8>,
                      shape: string -> string, duration: seq<bv8> -> real, clip: real)
    requires 1 <= range.start <= range.end <= |ar| && range.start <= |en|
    requires forall b :: duration(b) >= 0.0
    requires clip > 0.0
    ensures var v := Assemble(n, ar, en, range, bytes, shape, duration, clip);
            Consistent(v)
            && |v.captions| == Min(range.end, |en|) - range.start + 1
            && (forall k :: 0 <= k < |v.captions| ==>
                  v.captions[k].item
                  == Line(CaptionText(Verse(shape(ar[range.start - 1 + k]), en[range.start - 1 + k]))))
            && v.audio == Downloaded(bytes) && v.length == duration(bytes)
            && v.background == TiledBackground(duration(bytes), clip)
            && v.output == RangeOutputName(n, range.start, range.end, Reciter)
  {
    SelectedPairs(ar, en, range.start, range.end, shape);
  }

  /** Every file the soundtrack is made of comes from the fixed archive and names the
      chapter and the verse it holds, in ascending order. */
  lemma DownloadsRange(n: int, start: int, end: int, k: int)
    requires 1 <= n <= MaxSurah && 1 <= start && end < 1000
    requires 0 <= k < Max(0, end - start + 1)
    ensures var u := VerseUrls(UrlOf(SudaisBase, n), start, end)[k];
            StartsWith(u, SudaisBase)
            && ParseInt(u[|SudaisBase|..|SudaisBase| + 3]) == Some(n)
            && ParseInt(u[|SudaisBase| + 3..|SudaisBase| + 6]) == Some(start + k)
  {
    VerseUrlDecodes(SudaisBase, n, start + k);
  }
}
