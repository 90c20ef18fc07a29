/** Names the scripts build from chapter and verse numbers (data files, audio files,
    download URLs, page URLs, output files) and the scan of a folder listing for the
    chapter's recitation. */
module Naming {
  import opened Outcomes
  import opened PyText

  const Mp3: string := ".mp3"
  const Mp4: string := ".mp4"
  const Json: string := ".json"

  /** `os.path.join(dir, name)` */
  function Path(dir: string, name: string): string
  {
    dir + "/" + name
  }

  // ---------------------------------------------------------------- data and audio files

  /** `f"surah_{n:03d}.json"` */
  function PaddedArabicFile(n: int): string
  {
    "surah_" + Pad3(n) + Json
  }

  /** `f"surah_{n}.json"` */
  function ArabicFile(n: int): string
  {
    "surah_" + IntToString(n) + Json
  }

  /** `f"en_translation_{n}.json"` */
  function TranslationFile(n: int): string
  {
    "en_translation_" + IntToString(n) + Json
  }

  /** `f"{n:03d}.mp3"` */
  function AudioFile(n: int): string
  {
    Pad3(n) + Mp3
  }

  /** The padded and the unpadded chapter file names coincide exactly for chapters 100
      and above; chapters below 100 are looked up under different names. */
  lemma ArabicFileNamesAgree(n: int)
    requires 0 <= n < 1000
    ensures PaddedArabicFile(n) == ArabicFile(n) <==> n >= 100
  {
    NatToStringShort(n);
    Pad3Width(n);
    var p, q := PaddedArabicFile(n), ArabicFile(n);
    if p == q {
      assert |Pad3(n)| == |IntToString(n)|;
    }
  }

  /** The audio file name determines the chapter. */
  lemma AudioFileInjective(m: int, n: int)
    requires AudioFile(m) == AudioFile(n) && 0 <= m < 1000 && 0 <= n < 1000
    ensures m == n
  {
    Pad3Width(m);
    Pad3Width(n);
    assert Pad3(m) == AudioFile(m)[..3];
    assert Pad3(n) == AudioFile(n)[..3];
    Pad3Injective(m, n);
  }

  // ---------------------------------------------------------------- per-verse URLs

  /** The base URLs per reciter of App/AppT1.py. */
  const ReciterUrls: map<string, string> := map[
    "Sudais" := "https://archive.org/download/quran-sudais-193/quran-sudais/",
    "Shuraim" := "https://archive.org/download/quran-shuraim-192/quran-shuraim-192/",
    "Alafasy" := "https://archive.org/download/quran-alafasy-192/quran-alafasy-192/",
    "Yasir" := "https://archive.org/download/quran-yasir-192/quran-yasir-192/"
  ]

  /** The fixed base of App/AppT7.py. */
  const SudaisBase: string := "https://archive.org/download/quran-sudais-192/quran-sudais-192/"

  /** `f"{base}{surah:03d}{verse:03d}.mp3"` */
  function VerseUrl(base: string, surah: int, verse: int): string
  {
    base + Pad3(surah) + Pad3(verse) + Mp3
  }

  /** The URL of one verse for a reciter of the URL table; a name the table does not hold
      raises KeyError. */
  function ReciterVerseUrl(reciter: string, surah: int, verse: int): (r: Result<string>)
    ensures r.Ok? <==> reciter in ReciterUrls
    ensures r.Ok? ==> StartsWith(r.value, ReciterUrls[reciter]) && EndsWith(r.value, Mp3)
    ensures r.Err? ==> r.failure == MissingKey
  {
    if reciter in ReciterUrls then
      var u := VerseUrl(ReciterUrls[reciter], surah, verse);
      assert u[..|ReciterUrls[reciter]|] == ReciterUrls[reciter];
      assert u[|u| - |Mp3|..] == Mp3;
      Ok(u)
    else Err(MissingKey)
  }

  /** Both numbers can be read back from a verse URL: three digits of chapter, then three
      of verse, right after the base. */
  lemma VerseUrlDecodes(base: string, surah: int, verse: int)
    requires 0 <= surah < 1000 && 0 <= verse < 1000
    ensures var u := VerseUrl(base, surah, verse);
            |u| == |base| + 10
            && u[..|base|] == base
            && ParseInt(u[|base|..|base| + 3]) == Some(surah)
            && ParseInt(u[|base| + 3..|base| + 6]) == Some(verse)
            && u[|base| + 6..] == Mp3
  {
    Pad3Width(surah);
    Pad3Width(verse);
    FourParts(base, Pad3(surah), Pad3(verse), Mp3);
    Pad3Parses(surah);
    Pad3Parses(verse);
  }

  /** Each of four joined texts is found back at its offset. */
  lemma FourParts(a: string, b: string, c: string, d: string)
    ensures var u := a + b + c + d;
            var i, j, k := |a|, |a| + |b|, |a| + |b| + |c|;
            |u| == k + |d| && u[..i] == a && u[i..j] == b && u[j..k] == c && u[k..] == d
  {
  }

  /** Distinct (chapter, verse) pairs give distinct URLs on the same base. */
  lemma VerseUrlInjective(base: string, s1: int, v1: int, s2: int, v2: int)
    requires 0 <= s1 < 1000 && 0 <= v1 < 1000 && 0 <= s2 < 1000 && 0 <= v2 < 1000
    requires VerseUrl(base, s1, v1) == VerseUrl(base, s2, v2)
    ensures s1 == s2 && v1 == v2
  {
    VerseUrlDecodes(base, s1, v1);
    VerseUrlDecodes(base, s2, v2);
  }

  /** The URLs of verses start..end in the order they are fetched, `urlOf` being
      `get_audio_url` with the reciter and chapter fixed. */
  function VerseUrls(urlOf: int -> string, start: int, end: int): (urls: seq<string>)
    ensures |urls| == Max(0, end - start + 1)
    ensures forall k :: 0 <= k < |urls| ==> urls[k] == urlOf(start + k)
  {
    seq(Max(0, end - start + 1), k requires 0 <= k < Max(0, end - start + 1) => urlOf(start + k))
  }

  /** `get_audio_url` of one reciter base and chapter. */
  function UrlOf(base: string, surah: int): int -> string
  {
    verse => VerseUrl(base, surah, verse)
  }

  /** The fetch order is ascending in the verse: URL k names verse start+k, so no verse
      is fetched twice. */
  lemma VerseUrlsAscending(base: string, surah: int, start: int, end: int, k: int)
    requires 0 <= surah < 1000 && 0 <= start && end < 1000
    requires 0 <= k < Max(0, end - start + 1)
    ensures var u := VerseUrls(UrlOf(base, surah), start, end)[k];
            ParseInt(u[|base| + 3..|base| + 6]) == Some(start + k)
  {
    VerseUrlDecodes(base, surah, start + k);
  }

  lemma VerseUrlsDistinct(base: string, surah: int, start: int, end: int, k: int, l: int)
    requires 0 <= surah < 1000 && 0 <= start && end < 1000
    requires 0 <= k < l < Max(0, end - start + 1)
    ensures VerseUrls(UrlOf(base, surah), start, end)[k] != VerseUrls(UrlOf(base, surah), start, end)[l]
  {
    if VerseUrl(base, surah, start + k) == VerseUrl(base, surah, start + l) {
      VerseUrlInjective(base, surah, start + k, surah, start + l);
    }
  }

  // ---------------------------------------------------------------- downloads

  /** What one `requests.get(url)` answers: a status and the body's bytes. */
  datatype Response = Response(status: int, body: seq<bv8>)

  /** The bytes of all bodies, in order. */
  function Bodies(urls: seq<string>, fetch: string -> Response): seq<bv8>
  {
    if urls == [] then [] else Bodies(urls[..|urls| - 1], fetch) + fetch(urls[|urls| - 1]).body
  }

  /** Index of the first URL answered with a status other than 200, or the number of URLs
      when every one succeeds. */
  function FirstFailure(urls: seq<string>, fetch: string -> Response): (k: int)
    ensures 0 <= k <= |urls|
    ensures forall j :: 0 <= j < k ==> fetch(urls[j]).status == 200
    ensures k < |urls| ==> fetch(urls[k]).status != 200
  {
    if urls == [] then 0
    else if fetch(urls[0]).status != 200 then 0
    else 1 + FirstFailure(urls[1..], fetch)
  }

  /** `download_audio`: the verse bodies appended in fetch order to one file; the first
      URL answered with a status other than 200 aborts with that URL. */
  function Download(urls: seq<string>, fetch: string -> Response): (r: Result<seq<bv8>>)
    ensures r.Ok? <==> forall j :: 0 <= j < |urls| ==> fetch(urls[j]).status == 200
    ensures r.Ok? ==> r.value == Bodies(urls, fetch)
    ensures r.Err? ==> exists k :: 0 <= k < |urls| && r.failure == DownloadFailed(urls[k])
                        && fetch(urls[k]).status != 200
                        && forall j :: 0 <= j < k ==> fetch(urls[j]).status == 200
  {
    var k := FirstFailure(urls, fetch);
    if k < |urls| then Err(DownloadFailed(urls[k])) else Ok(Bodies(urls, fetch))
  }

  /** The download loop: one request per verse, in ascending order, each body written
      after the previous ones. */
  method DownloadAudio(urlOf: int -> string, start: int, end: int, fetch: string -> Response)
    returns (r: Result<seq<bv8>>)
    ensures r == Download(VerseUrls(urlOf, start, end), fetch)
  {
    ghost var urls := VerseUrls(urlOf, start, end);
    var file: seq<bv8> := [];
    var verse := start;
    while verse <= end
      invariant start <= verse <= Max(start, end + 1)
      invariant forall j :: 0 <= j < verse - start ==> fetch(urls[j]).status == 200
      invariant file == Bodies(urls[..verse - start], fetch)
    {
      var url := urlOf(verse);
      assert url == urls[verse - start];
      var response := fetch(url);
      if response.status != 200 {
        FirstFailureAt(urls, fetch, verse - start);
        return Err(DownloadFailed(url));
      }
      BodiesStep(urls, fetch, verse - start);
      file := file + response.body;
      verse := verse + 1;
    }
    AllFetched(urls, fetch);
    r := Ok(file);
  }

  lemma BodiesStep(urls: seq<string>, fetch: string -> Response, i: int)
    requires 0 <= i < |urls|
    ensures Bodies(urls[..i + 1], fetch) == Bodies(urls[..i], fetch) + fetch(urls[i]).body
  {
    assert urls[..i + 1][..i] == urls[..i];
  }

  lemma AllFetched(urls: seq<string>, fetch: string -> Response)
    requires forall j :: 0 <= j < |urls| ==> fetch(urls[j]).status == 200
    ensures Download(urls, fetch) == Ok(Bodies(urls[..|urls|], fetch))
  {
    assert urls[..|urls|] == urls;
  }

  /** The first failure is the failing URL all of whose predecessors succeeded. */
  lemma FirstFailureAt(urls: seq<string>, fetch: string -> Response, k: int)
    requires 0 <= k < |urls| && fetch(urls[k]).status != 200
    requires forall j :: 0 <= j < k ==> fetch(urls[j]).status == 200
    ensures FirstFailure(urls, fetch) == k
  {
  }

  // ---------------------------------------------------------------- listing scan

  /** A listed name that starts with the prefix and ends with the suffix. */
  predicate Matches(name: string, prefix: string, suffix: string)
  {
    StartsWith(name, prefix) && EndsWith(name, suffix)
  }

  function FirstMatchIndex(listing: seq<string>, prefix: string, suffix: string): (k: int)
    ensures 0 <= k <= |listing|
    ensures forall j :: 0 <= j < k ==> !Matches(listing[j], prefix, suffix)
    ensures k < |listing| ==> Matches(listing[k], prefix, suffix)
  {
    if listing == [] then 0
    else if Matches(listing[0], prefix, suffix) then 0
    else 1 + FirstMatchIndex(listing[1..], prefix, suffix)
  }

  /** The file the scan settles on: the first entry of the listing that matches, in
      listing order; `None` when no entry matches. */
  function FirstMatch(listing: seq<string>, prefix: string, suffix: string): (r: Option<string>)
    ensures r.None? <==> forall j :: 0 <= j < |listing| ==> !Matches(listing[j], prefix, suffix)
    ensures r.Some? ==> Matches(r.value, prefix, suffix)
    ensures r.Some? ==> exists k :: 0 <= k < |listing| && listing[k] == r.value &&
                                    forall j :: 0 <= j < k ==> !Matches(listing[j], prefix, suffix)
  {
    var k := FirstMatchIndex(listing, prefix, suffix);
    if k < |listing| then Some(listing[k]) else None
  }

  /** The folder scan: names are tried in listing order and the scan stops at the first
      match. */
  method FindAudio(listing: seq<string>, prefix: string, suffix: string) returns (found: Option<string>)
    ensures found == FirstMatch(listing, prefix, suffix)
  {
    found := None;
    var i := 0;
    while i < |listing|
      invariant 0 <= i <= |listing|
      invariant forall j :: 0 <= j < i ==> !Matches(listing[j], prefix, suffix)
    {
      if StartsWith(listing[i], prefix) && EndsWith(listing[i], suffix) {
        found := Some(listing[i]);
        assert FirstMatchIndex(listing, prefix, suffix) == i by {
          FirstMatchAt(listing, prefix, suffix, i);
        }
        return;
      }
      i := i + 1;
    }
  }

  lemma FirstMatchAt(listing: seq<string>, prefix: string, suffix: string, i: int)
    requires 0 <= i < |listing| && Matches(listing[i], prefix, suffix)
    requires forall j :: 0 <= j < i ==> !Matches(listing[j], prefix, suffix)
    ensures FirstMatchIndex(listing, prefix, suffix) == i
  {
  }

  /** With the bare three-digit prefix, a listing holding the plain `NNN.mp3` file always
      yields some recitation, and whatever file is found starts with the chapter number. */
  lemma PlainFileIsFound(listing: seq<string>, n: int)
    requires 0 <= n < 1000 && AudioFile(n) in listing
    ensures FirstMatch(listing, Pad3(n), Mp3).Some?
    ensures ParseInt(FirstMatch(listing, Pad3(n), Mp3).value[..3]) == Some(n)
  {
    var f := AudioFile(n);
    Pad3Width(n);
    assert Matches(f, Pad3(n), Mp3) by {
      assert f[..3] == Pad3(n);
      assert f[|f| - 4..] == Mp3;
    }
    var k :| 0 <= k < |listing| && listing[k] == f;
    Pad3Parses(n);
  }

  /** With the dashed prefix `NNN-`, the plain `NNN.mp3` file is never taken. */
  lemma DashedPrefixSkipsPlainFile(n: int)
    requires 0 <= n < 1000
    ensures !Matches(AudioFile(n), Pad3(n) + "-", Mp3)
  {
    Pad3Width(n);
    var f := AudioFile(n);
    assert f[3] == '.';
  }

  // ---------------------------------------------------------------- page URLs

  /** `f"/audio/{reciter}/{audio_file}"` */
  function AudioRoute(reciter: string, file: string): string
  {
    "/audio/" + reciter + "/" + file
  }

  /** `f"/backgrounds/{background}"` */
  function BackgroundRoute(background: string): string
  {
    "/backgrounds/" + background
  }

  /** The audio URL splits back, on '/', into the route and the two names it carries. */
  lemma AudioRouteSplits(reciter: string, file: string)
    requires '/' !in reciter && '/' !in file
    ensures Split(AudioRoute(reciter, file), '/') == ["", "audio", reciter, file]
  {
    SplitAtFirst("", '/', "audio/" + reciter + "/" + file);
    assert AudioRoute(reciter, file) == "" + "/" + ("audio/" + reciter + "/" + file);
    SplitAtFirst("audio", '/', reciter + "/" + file);
    assert "audio/" + reciter + "/" + file == "audio" + "/" + (reciter + "/" + file);
    SplitPair(reciter, '/', file);
  }

  lemma BackgroundRouteSplits(background: string)
    requires '/' !in background
    ensures Split(BackgroundRoute(background), '/') == ["", "backgrounds", background]
  {
    SplitAtFirst("", '/', "backgrounds/" + background);
    assert BackgroundRoute(background) == "" + "/" + ("backgrounds/" + background);
    assert "backgrounds/" + background == "backgrounds" + "/" + background;
    SplitPair("backgrounds", '/', background);
  }

  // ---------------------------------------------------------------- output names

  /** `f"surah_{n}_{start}-{end}_{reciter}.mp4"` */
  function RangeOutputName(n: int, start: int, end: int, reciter: string): string
  {
    "surah_" + IntToString(n) + "_" + IntToString(start) + "-" + IntToString(end)
      + "_" + reciter + Mp4
  }

  /** `f"surah_{n}_{start}-{end}.mp4"` */
  function RangeOnlyOutputName(n: int, start: int, end: int): string
  {
    "surah_" + IntToString(n) + "_" + IntToString(start) + "-" + IntToString(end) + Mp4
  }

  /** `f"surah_{n}_{reciter}.mp4"` */
  function ChapterOutputName(n: int, reciter: string): string
  {
    "surah_" + IntToString(n) + "_" + reciter + Mp4
  }

  const FinalVideo: string := "final_video.mp4"

  /** Different requests never overwrite each other's video: the name determines the
      chapter, the range and the reciter. */
  lemma RangeOutputNameInjective(n1: int, s1: int, e1: int, r1: string,
                                 n2: int, s2: int, e2: int, r2: string)
    requires s1 >= 0 && s2 >= 0
    requires RangeOutputName(n1, s1, e1, r1) == RangeOutputName(n2, s2, e2, r2)
    ensures n1 == n2 && s1 == s2 && e1 == e2 && r1 == r2
  {
    IntToStringHasNo(n1, '_');
    IntToStringHasNo(n2, '_');
    IntToStringHasNo(s1, '-');
    IntToStringHasNo(s2, '-');
    IntToStringHasNo(e1, '_');
    IntToStringHasNo(e2, '_');
    FieldsEqual(IntToString(n1), IntToString(s1), IntToString(e1), r1,
                IntToString(n2), IntToString(s2), IntToString(e2), r2);
    IntToStringInjective(n1, n2);
    IntToStringInjective(s1, s2);
    IntToStringInjective(e1, e2);
  }

  /** The range name read from the right: the fields after the prefix, each followed by
      the rest. */
  lemma Regrouped(a: string, b: string, c: string, r: string)
    ensures "surah_" + a + "_" + b + "-" + c + "_" + r + Mp4
            == "surah_" + (a + "_" + (b + "-" + (c + "_" + (r + Mp4))))
  {
    var x := "surah_" + a + "_" + b + "-" + c + "_";
    assert x + r + Mp4 == x + (r + Mp4);
    var y := "surah_" + a + "_" + b + "-";
    assert y + c + "_" + (r + Mp4) == y + (c + "_" + (r + Mp4));
    var z := "surah_" + a + "_";
    assert z + b + "-" + (c + "_" + (r + Mp4)) == z + (b + "-" + (c + "_" + (r + Mp4)));
    assert "surah_" + a + "_" + (b + "-" + (c + "_" + (r + Mp4)))
           == "surah_" + (a + "_" + (b + "-" + (c + "_" + (r + Mp4))));
  }

  /** The fields of a name `surah_A_B-C_R.mp4` are recovered from it when A and C have
      no '_' and B has no '-'. */
  lemma FieldsEqual(a1: string, b1: string, c1: string, r1: string,
                    a2: string, b2: string, c2: string, r2: string)
    requires '_' !in a1 && '_' !in a2 && '-' !in b1 && '-' !in b2 && '_' !in c1 && '_' !in c2
    requires "surah_" + a1 + "_" + b1 + "-" + c1 + "_" + r1 + Mp4
             == "surah_" + a2 + "_" + b2 + "-" + c2 + "_" + r2 + Mp4
    ensures a1 == a2 && b1 == b2 && c1 == c2 && r1 == r2
  {
    var d1, d2 := r1 + Mp4, r2 + Mp4;
    var t1, t2 := b1 + "-" + (c1 + "_" + d1), b2 + "-" + (c2 + "_" + d2);
    Regrouped(a1, b1, c1, r1);
    Regrouped(a2, b2, c2, r2);
    assert a1 + "_" + t1 == ("surah_" + (a1 + "_" + t1))[6..];
    assert a2 + "_" + t2 == ("surah_" + (a2 + "_" + t2))[6..];
    SeparatedEqual(a1, t1, a2, t2, '_');
    SeparatedEqual(b1, c1 + "_" + d1, b2, c2 + "_" + d2, '-');
    SeparatedEqual(c1, d1, c2, d2, '_');
    assert r1 == d1[..|r1|];
    assert r2 == d2[..|r2|];
  }

  /** The chapter-only name determines the chapter and the reciter. */
  lemma ChapterOutputNameInjective(n1: int, r1: string, n2: int, r2: string)
    requires ChapterOutputName(n1, r1) == ChapterOutputName(n2, r2)
    ensures n1 == n2 && r1 == r2
  {
    var a1, a2 := IntToString(n1), IntToString(n2);
    assert a1 + "_" + (r1 + Mp4) == ChapterOutputName(n1, r1)[6..];
    assert a2 + "_" + (r2 + Mp4) == ChapterOutputName(n2, r2)[6..];
    IntToStringHasNo(n1, '_');
    IntToStringHasNo(n2, '_');
    SeparatedEqual(a1, r1 + Mp4, a2, r2 + Mp4, '_');
    IntToStringInjective(n1, n2);
    assert r1 == (r1 + Mp4)[..|r1|];
    assert r2 == (r2 + Mp4)[..|r2|];
  }
}
