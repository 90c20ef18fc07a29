/** App/AppT1.py: the chapter is read off a label, the range text is resolved strictly,
    the recitation of the range is downloaded verse by verse from the chosen reciter's
    archive, the background is looped by the video library, and each verse becomes a
    picture with the Arabic above the translation. */
module AppT1 {
  import opened Outcomes
  import opened PyText
  import opened Selection
  import opened Pairing
  import opened Timing
  import opened Naming
  import opened Clips

  /** A press of the generate button, as a value. `choice` is the chosen line of
      surahs.txt, `reciter` one of the archive's reciters, `shape` the reshaping and
      reordering of Arabic text for display, `fetch` what the network answers for a URL,
      `duration` what the video library reports for a downloaded file, `clip` the length
      of the background clip. */
  function Plan(choice: string, text: string, reciter: string, arStore: Store, enStore: Store,
                shape: string -> string, fetch: string -> Response,
                duration: seq<bv8> -> real, clip: real): Result<Video>
    requires reciter in ReciterUrls
  {
    match LabelNumber(choice)
    case Err(f) => Err(f)
    case Ok(n) =>
      var ar := Get(arStore, n);
      match StrictRange(text, |ar|)
      case Err(f) => Err(f)
      case Ok(range) => FromRange(n, ar, Get(enStore, n), range, reciter, shape, fetch, duration, clip)
  }

  /** The steps after the range is resolved: download, then time one picture per verse
      over the download. */
  function FromRange(n: int, ar: seq<string>, en: seq<string>, range: VerseRange, reciter: string,
                     shape: string -> string, fetch: string -> Response,
                     duration: seq<bv8> -> real, clip: real): Result<Video>
    requires reciter in ReciterUrls
    requires range.start >= 1 && range.end >= 0
  {
    match Download(VerseUrls(UrlOf(ReciterUrls[reciter], n), range.start, range.end), fetch)
    case Err(f) => Err(f)
    case Ok(bytes) =>
      if |Selected(ar, en, range.start, range.end, shape)| == 0 then Err(ZeroDivision)
      else Ok(Assemble(n, ar, en, range, bytes, reciter, shape, duration, clip))
  }

  /** The composite: the downloaded soundtrack, the looped background and the timed
      pictures. */
  function Assemble(n: int, ar: seq<string>, en: seq<string>, range: VerseRange, bytes: seq<bv8>,
                    reciter: string, shape: string -> string,
                    duration: seq<bv8> -> real, clip: real): Video
    requires range.start >= 1 && range.end >= 0
  {
    var audio := duration(bytes);
    Film(Downloaded(bytes), audio, Looped(clip, audio), Pictures(Selected(ar, en, range.start, range.end, shape)),
         RangeOutputName(n, range.start, range.end, reciter))
  }

  /** The script's steps in order: the label, the range, then the download loop, the
      image loop and the pictures given their slots in place. */
  method Generate(choice: string, text: string, reciter: string, arStore: Store, enStore: Store,
                  shape: string -> string, fetch: string -> Response,
                  duration: seq<bv8> -> real, clip: real) returns (r: Result<Video>)
    requires reciter in ReciterUrls
    ensures r == Plan(choice, text, reciter, arStore, enStore, shape, fetch, duration, clip)
  {
    var n := LabelNumber(choice);
    if n.Err? {
      return Err(n.failure);
    }
    var ar := Get(arStore, n.value);
    var range := StrictRange(text, |ar|);
    if range.Err? {
      return Err(range.failure);
    }
    r := GenerateRange(n.value, ar, Get(enStore, n.value), range.value, reciter, shape, fetch, duration, clip);
  }

  method GenerateRange(n: int, ar: seq<string>, en: seq<string>, range: VerseRange, reciter: string,
                       shape: string -> string, fetch: string -> Response,
                       duration: seq<bv8> -> real, clip: real) returns (r: Result<Video>)
    requires reciter in ReciterUrls
    requires range.start >= 1 && range.end >= 0
    ensures r == FromRange(n, ar, en, range, reciter, shape, fetch, duration, clip)
  {
    var s, e := range.start, range.end;
    var bytes := DownloadAudio(UrlOf(ReciterUrls[reciter], n), s, e, fetch);
    if bytes.Err? {
      return Err(bytes.failure);
    }
    var audio := duration(bytes.value);
    var clips := PrepareImages(PySlice(ar, s - 1, e), PySlice(en, s - 1, e), shape);
    if clips.Length == 0 {
      return Err(ZeroDivision);
    }
    TimeInPlace(clips, audio);
    r := Ok(Video(Downloaded(bytes.value), audio, Looped(clip, audio), clips[..],
                  RangeOutputName(n, s, e, reciter)));
  }

  /** `prepare_text_images`: one picture per pair of the zip, in order, not yet timed. */
  method PrepareImages(ar: seq<string>, en: seq<string>, shape: string -> string)
    returns (images: array<Timed<Caption>>)
    ensures fresh(images)
    ensures Items(images[..]) == Pictures(Zip(ar, en, shape))
  {
    var verses := PairPositionally(ar, en, shape);
    var pictures := Pictures(verses);
    images := new Timed<Caption>[|pictures|](i requires 0 <= i < |pictures| => Timed(pictures[i], 0.0, 0.0));
    assert forall i :: 0 <= i < |pictures| ==> Items(images[..])[i] == pictures[i];
  }

  /** Generation stops exactly when the label has no number, the range text has a part
      `int()` rejects, some verse of the range is not answered with 200, or there is no
      verse to show: the chapter is missing from the Arabic store or the translation ends
      before the range starts. */
  lemma PlanStops(choice: string, text: string, reciter: string, arStore: Store, enStore: Store,
                  shape: string -> string, fetch: string -> Response,
                  duration: seq<bv8> -> real, clip: real)
    requires reciter in ReciterUrls
    ensures LabelNumber(choice).Err? ==> Plan(choice, text, reciter, arStore, enStore, shape, fetch, duration, clip).Err?
    ensures LabelNumber(choice).Ok? && StrictRange(text, |Get(arStore, LabelNumber(choice).value)|).Err? ==>
              Plan(choice, text, reciter, arStore, enStore, shape, fetch, duration, clip).Err?
    ensures LabelNumber(choice).Ok? && StrictRange(text, |Get(arStore, LabelNumber(choice).value)|).Ok? ==>
              (Plan(choice, text, reciter, arStore, enStore, shape, fetch, duration, clip).Err? <==>
                 RangeStops(LabelNumber(choice).value, Get(arStore, LabelNumber(choice).value),
                            Get(enStore, LabelNumber(choice).value),
                            StrictRange(text, |Get(arStore, LabelNumber(choice).value)|).value,
                            reciter, fetch))
  {
    var n := LabelNumber(choice);
    if n.Ok? {
      var ar := Get(arStore, n.value);
      var range := StrictRange(text, |ar|);
      if range.Ok? {
        assert Plan(choice, text, reciter, arStore, enStore, shape, fetch, duration, clip)
               == FromRange(n.value, ar, Get(enStore, n.value), range.value, reciter, shape, fetch, duration, clip);
        FromRangeStops(n.value, ar, Get(enStore, n.value), range.value, reciter, shape, fetch, duration, clip);
      }
    }
  }

  /** Past the range, a run stops exactly when some verse of the range is not answered
      with 200, or there is no verse to show: the chapter is missing from the Arabic
      store or the translation ends before the range starts. */
  predicate RangeStops(n: int, ar: seq<string>, en: seq<string>, range: VerseRange, reciter: string,
                       fetch: string -> Response)
    requires reciter in ReciterUrls
  {
    Download(VerseUrls(UrlOf(ReciterUrls[reciter], n), range.start, range.end), fetch).Err?
    || |ar| == 0 || |en| < range.start
  }

  lemma FromRangeStops(n: int, ar: seq<string>, en: seq<string>, range: VerseRange, reciter: string,
                       shape: string -> string, fetch: string -> Response,
                       duration: seq<bv8> -> real, clip: real)
    requires reciter in ReciterUrls
    requires range.start >= 1 && range.end >= 0 && (|ar| >= 1 ==> range.start <= range.end <= |ar|)
    ensures FromRange(n, ar, en, range, reciter, shape, fetch, duration, clip).Err?
            <==> RangeStops(n, ar, en, range, reciter, fetch)
  {
    SelectedPairs(ar, en, range.start, range.end, shape);
  }

  /** What a generated video shows for chapter `n` with verse lists `ar` and `en` and
      resolved `range`: caption k is a picture of shaped Arabic verse start+k above its
      translation, as many as both slices share; the soundtrack is the bodies of the
      range's verse URLs in order, all answered with 200, and lasts what the library
      reports; the looped background and the captions fit it; the file is named after
      chapter, range and reciter. */
  ghost predicate Shows(v: Video, n: int, ar: seq<string>, en: seq<string>, range: VerseRange,
                        reciter: string, shape: string -> string, fetch: string -> Response,
                        duration: seq<bv8> -> real, clip: real)
    requires reciter in ReciterUrls
  {
    var urls := VerseUrls(UrlOf(ReciterUrls[reciter], n), range.start, range.end);
    Consistent(v)
    && 1 <= range.start <= range.end <= |ar|
    && |v.captions| == Min(range.end, |en|) - range.start + 1
    && (forall k :: 0 <= k < |v.captions| ==>
          v.captions[k].item == Picture(shape(ar[range.start - 1 + k]), en[range.start - 1 + k]))
    && (forall j :: 0 <= j < |urls| ==> fetch(urls[j]).status == 200)
    && v.audio == Downloaded(Bodies(urls, fetch))
    && v.length == duration(v.audio.bytes)
    && v.background == Looped(clip, v.length)
    && v.output == RangeOutputName(n, range.start, range.end, reciter)
  }

  /** A generated video shows the resolved range of the labelled chapter. */
  lemma PlanProduces(choice: string, text: string, reciter: string, arStore: Store, enStore: Store,
                     shape: string -> string, fetch: string -> Response,
                     duration: seq<bv8> -> real, clip: real)
    requires reciter in ReciterUrls
    requires Plan(choice, text, reciter, arStore, enStore, shape, fetch, duration, clip).Ok?
    ensures LabelNumber(choice).Ok?
    ensures StrictRange(text, |Get(arStore, LabelNumber(choice).value)|).Ok?
    ensures Shows(Plan(choice, text, reciter, arStore, enStore, shape, fetch, duration, clip).value,
                  LabelNumber(choice).value, Get(arStore, LabelNumber(choice).value),
                  Get(enStore, LabelNumber(choice).value),
                  StrictRange(text, |Get(arStore, LabelNumber(choice).value)|).value,
                  reciter, shape, fetch, duration, clip)
  {
    var n := LabelNumber(choice).value;
    var ar := Get(arStore, n);
    var en := Get(enStore, n);
    var range := StrictRange(text, |ar|).value;
    assert Plan(choice, text, reciter, arStore, enStore, shape, fetch, duration, clip)
           == FromRange(n, ar, en, range, reciter, shape, fetch, duration, clip);
    FromRangeProduces(n, ar, en, range, reciter, shape, fetch, duration, clip);
  }

  lemma FromRangeProduces(n: int, ar: seq<string>, en: seq<string>, range: VerseRange,
                          reciter: string, shape: string -> string, fetch: string -> Response,
                          duration: seq<bv8> -> real, clip: real)
    requires reciter in ReciterUrls
    requires range.start >= 1 && range.end >= 0 && (|ar| >= 1 ==> range.start <= range.end <= |ar|)
    requires FromRange(n, ar, en, range, reciter, shape, fetch, duration, clip).Ok?
    ensures Shows(FromRange(n, ar, en, range, reciter, shape, fetch, duration, clip).value,
                  n, ar, en, range, reciter, shape, fetch, duration, clip)
  {
    var urls := VerseUrls(UrlOf(ReciterUrls[reciter], n), range.start, range.end);
    var bytes := Download(urls, fetch).value;
    SelectedPairs(ar, en, range.start, range.end, shape);
    AssembleShows(n, ar, en, range, bytes, reciter, shape, duration, clip);
  }

  lemma AssembleShows(n: int, ar: seq<string>, en: seq<string>, range: VerseRange, bytes: seq<bv8>,
                      reciter: string, shape: string -> string,
                      duration: seq<bv8> -> real, clip: real)
    requires 1 <= range.start <= range.end <= |ar| && range.start <= |en|
    ensures var v := Assemble(n, ar, en, range, bytes, reciter, shape, duration, clip);
            Consistent(v)
            && |v.captions| == Min(range.end, |en|) - range.start + 1
            && (forall k :: 0 <= k < |v.captions| ==>
                  v.captions[k].item == Picture(shape(ar[range.start - 1 + k]), en[range.start - 1 + k]))
            && v.audio == Downloaded(bytes) && v.length == duration(bytes)
            && v.background == Looped(clip, v.length)
            && v.output == RangeOutputName(n, range.start, range.end, reciter)
  {
    SelectedPairs(ar, en, range.start, range.end, shape);
  }
}
