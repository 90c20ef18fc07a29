/** Putting Arabic and English verse texts together into caption records, in the three
    ways the scripts do it: positionally, by `verse_{i}` key, and driven by the English
    list. */
module Pairing {
  import opened Outcomes
  import opened PyText

  /** One caption record: `{"arabic": ..., "translation": ...}`. */
  datatype Verse = Verse(arabic: string, translation: string)

  /** `f"{arabic}\n{translation}"`, the text drawn for one verse. */
  function CaptionText(v: Verse): (t: string)
    ensures |t| == |v.arabic| + 1 + |v.translation|
    ensures t[..|v.arabic|] == v.arabic && t[|v.arabic|] == '\n'
  {
    v.arabic + "\n" + v.translation
  }

  /** As long as the Arabic text has no line break, the caption determines the record:
      both texts can be read back from it. */
  lemma CaptionTextInjective(v: Verse, w: Verse)
    requires '\n' !in v.arabic && '\n' !in w.arabic
    ensures CaptionText(v) == CaptionText(w) <==> v == w
  {
    if CaptionText(v) == CaptionText(w) {
      SeparatedEqual(v.arabic, v.translation, w.arabic, w.translation, '\n');
    }
  }

  /** The translation is everything after the first line break of the caption. */
  lemma CaptionTranslation(v: Verse)
    requires '\n' !in v.arabic
    ensures '\n' in CaptionText(v)
    ensures AfterFirst(CaptionText(v), '\n') == v.translation
  {
    var t := CaptionText(v);
    assert t[|v.arabic|] == '\n';
    var r := AfterFirst(t, '\n');
    var a :| '\n' !in a && t == a + "\n" + r;
    SeparatedEqual(a, r, v.arabic, v.translation, '\n');
  }

  // ---------------------------------------------------------------- slices and zip

  /** `s[i:j]` for non-negative bounds: both clamped to the length, empty when inverted. */
  function PySlice<T>(s: seq<T>, i: int, j: int): (r: seq<T>)
    requires i >= 0 && j >= 0
    ensures |r| == Max(0, Min(j, |s|) - Min(i, |s|))
    ensures forall k :: 0 <= k < |r| ==> i + k < |s| && r[k] == s[i + k]
  {
    var lo := Min(i, |s|);
    var hi := Min(j, |s|);
    if lo <= hi then s[lo..hi] else []
  }

  /** Pairs the shaped Arabic verses with the English ones position by position, stopping
      at the end of the shorter list. */
  function Zip(ar: seq<string>, en: seq<string>, shape: string -> string): (r: seq<Verse>)
    ensures |r| == Min(|ar|, |en|)
    ensures forall k :: 0 <= k < |r| ==> r[k] == Verse(shape(ar[k]), en[k])
  {
    if ar == [] || en == [] then []
    else [Verse(shape(ar[0]), en[0])] + Zip(ar[1..], en[1..], shape)
  }

  /** The append loop over `zip(...)`. */
  method PairPositionally(ar: seq<string>, en: seq<string>, shape: string -> string)
    returns (verses: seq<Verse>)
    ensures verses == Zip(ar, en, shape)
  {
    verses := [];
    var i := 0;
    var n := Min(|ar|, |en|);
    while i < n
      invariant 0 <= i <= n
      invariant |verses| == i
      invariant forall k :: 0 <= k < i ==> verses[k] == Verse(shape(ar[k]), en[k])
    {
      verses := verses + [Verse(shape(ar[i]), en[i])];
      i := i + 1;
    }
  }

  /** The records of the slices `[start-1:end]` of both lists, zipped. */
  function Selected(ar: seq<string>, en: seq<string>, start: int, end: int, shape: string -> string)
    : seq<Verse>
    requires start >= 1 && end >= 0
  {
    Zip(PySlice(ar, start - 1, end), PySlice(en, start - 1, end), shape)
  }

  /** Zipping the slices: one record per verse present in both lists, record k pairing
      verse start+k of each; as many records as the range holds when both lists reach
      `end`. */
  lemma SelectedPairs(ar: seq<string>, en: seq<string>, start: int, end: int,
                      shape: string -> string)
    requires start >= 1 && end >= 0
    ensures var r := Selected(ar, en, start, end, shape);
            |r| == Max(0, Min(end, Min(|ar|, |en|)) - (start - 1))
            && forall k :: 0 <= k < |r| ==>
                 start - 1 + k < Min(|ar|, |en|)
                 && r[k] == Verse(shape(ar[start - 1 + k]), en[start - 1 + k])
    ensures start <= end <= Min(|ar|, |en|) ==> |Selected(ar, en, start, end, shape)| == end - start + 1
  {
  }

  // ---------------------------------------------------------------- index-based records

  /** One record per verse number start..end, each read by index from both lists: an
      index past either list raises IndexError. */
  function IndexedRecords(ar: seq<string>, en: seq<string>, start: int, end: int,
                          shape: string -> string): (r: Result<seq<Verse>>)
    requires start >= 1
    ensures r.Err? <==> start <= end && end > Min(|ar|, |en|)
    ensures r.Err? ==> r.failure == IndexOutOfRange
    ensures r.Ok? ==> |r.value| == Max(0, end - start + 1)
    ensures r.Ok? ==> forall k :: 0 <= k < |r.value| ==>
                        r.value[k] == Verse(shape(ar[start - 1 + k]), en[start - 1 + k])
  {
    if start <= end && end > Min(|ar|, |en|) then Err(IndexOutOfRange)
    else Ok(seq(Max(0, end - start + 1),
                k requires 0 <= k < Max(0, end - start + 1) =>
                  Verse(shape(ar[start - 1 + k]), en[start - 1 + k])))
  }

  /** Where the index-based records succeed, they are exactly the zip of the two slices,
      and an inverted range gives no records at all. */
  lemma IndexedIsZipOfSlices(ar: seq<string>, en: seq<string>, start: int, end: int,
                             shape: string -> string)
    requires start >= 1 && end >= 0
    ensures IndexedRecords(ar, en, start, end, shape).Ok? ==>
              IndexedRecords(ar, en, start, end, shape).value == Selected(ar, en, start, end, shape)
    ensures start > end ==> IndexedRecords(ar, en, start, end, shape) == Ok([])
  {
    var r := IndexedRecords(ar, en, start, end, shape);
    if r.Ok? {
      var z := Selected(ar, en, start, end, shape);
      SelectedPairs(ar, en, start, end, shape);
      assert |r.value| == |z|;
      forall k | 0 <= k < |z| ensures r.value[k] == z[k] { }
    }
  }

  // ---------------------------------------------------------------- key-indexed records

  /** A parsed per-chapter JSON object: its optional `count` and optional `verse` object. */
  datatype JsonChapter = JsonChapter(count: Option<int>, verse: Option<map<string, string>>)

  /** `f"verse_{i}"` */
  function VerseKey(i: int): string
  {
    "verse_" + IntToString(i)
  }

  /** Different verse numbers have different keys. */
  lemma VerseKeyInjective(i: int, j: int)
    ensures VerseKey(i) == VerseKey(j) <==> i == j
  {
    if VerseKey(i) == VerseKey(j) {
      assert IntToString(i) == VerseKey(i)[6..];
      assert IntToString(j) == VerseKey(j)[6..];
      IntToStringInjective(i, j);
    }
  }

  /** `d.get(key, "")` */
  function Lookup(d: map<string, string>, key: string): string
  {
    if key in d then d[key] else ""
  }

  /** `data.get("count", 0)` */
  function Count(c: JsonChapter): int
  {
    if c.count.Some? then c.count.value else 0
  }

  /** The composition loop of the Flask variants as a value: one record per verse number
      1..count of the Arabic object, each reading `verse_{i}` from both objects' `verse`
      maps with "" for a missing key. With at least one verse, a missing `verse` object
      raises KeyError. */
  function KeyedVerses(arabic: JsonChapter, translation: JsonChapter): (r: Result<seq<Verse>>)
    ensures r.Err? <==> Count(arabic) >= 1 && (arabic.verse.None? || translation.verse.None?)
    ensures r.Err? ==> r.failure == MissingKey
    ensures r.Ok? ==> |r.value| == Max(0, Count(arabic))
    ensures r.Ok? ==> forall k :: 0 <= k < |r.value| ==>
              r.value[k] == Verse(Lookup(arabic.verse.value, VerseKey(k + 1)),
                                  Lookup(translation.verse.value, VerseKey(k + 1)))
  {
    var n := Count(arabic);
    if n <= 0 then Ok([])
    else if arabic.verse.None? || translation.verse.None? then Err(MissingKey)
    else
      var a, t := arabic.verse.value, translation.verse.value;
      Ok(seq(n, k requires 0 <= k < n => Verse(Lookup(a, VerseKey(k + 1)), Lookup(t, VerseKey(k + 1)))))
  }

  /** The loop over verse numbers 1..count that appends one record per key. */
  method ComposeKeyed(arabic: JsonChapter, translation: JsonChapter) returns (r: Result<seq<Verse>>)
    ensures r == KeyedVerses(arabic, translation)
  {
    var n := Count(arabic);
    var verses: seq<Verse> := [];
    var i := 1;
    while i <= n
      invariant 1 <= i <= Max(1, n + 1)
      invariant i > 1 ==> arabic.verse.Some? && translation.verse.Some?
      invariant |verses| == i - 1
      invariant forall k :: 0 <= k < i - 1 ==>
                  verses[k] == Verse(Lookup(arabic.verse.value, VerseKey(k + 1)),
                                     Lookup(translation.verse.value, VerseKey(k + 1)))
    {
      if arabic.verse.None? || translation.verse.None? {
        return Err(MissingKey);
      }
      var key := VerseKey(i);
      verses := verses + [Verse(Lookup(arabic.verse.value, key), Lookup(translation.verse.value, key))];
      i := i + 1;
    }
    r := Ok(verses);
    if n >= 1 {
      var expected := KeyedVerses(arabic, translation).value;
      assert |expected| == |verses|;
      forall k | 0 <= k < |verses| ensures verses[k] == expected[k] { }
      assert verses == expected;
    }
  }

  /** The `verse` object a list of texts is stored as: `verse_{i}` holds text i-1. */
  predicate StoresList(d: map<string, string>, texts: seq<string>)
  {
    forall i :: 1 <= i <= |texts| ==> VerseKey(i) in d && d[VerseKey(i)] == texts[i - 1]
  }

  /** When both objects store lists (Arabic with `count` its length), keyed composition
      pairs the lists positionally; where the English list is shorter the remaining
      records have an empty translation. */
  lemma KeyedIsPositional(arabic: JsonChapter, translation: JsonChapter,
                          ar: seq<string>, en: seq<string>)
    requires arabic.count == Some(|ar|) && arabic.verse.Some? && translation.verse.Some?
    requires StoresList(arabic.verse.value, ar) && StoresList(translation.verse.value, en)
    requires forall k :: VerseKey(k) in translation.verse.value ==> 1 <= k <= |en|
    ensures KeyedVerses(arabic, translation).Ok?
    ensures forall k :: 0 <= k < |ar| ==>
              KeyedVerses(arabic, translation).value[k]
              == Verse(ar[k], if k < |en| then en[k] else "")
    ensures |en| >= |ar| ==> KeyedVerses(arabic, translation).value == Zip(ar, en, s => s)
  {
    forall k | 0 <= k < |ar|
      ensures KeyedVerses(arabic, translation).value[k] == Verse(ar[k], if k < |en| then en[k] else "")
    {
      KeyedAt(arabic, translation, ar, en, k);
    }
    if |en| >= |ar| {
      var r := KeyedVerses(arabic, translation).value;
      var z := Zip(ar, en, s => s);
      assert |r| == |z|;
      forall k | 0 <= k < |r| ensures r[k] == z[k] { }
    }
  }

  lemma KeyedAt(arabic: JsonChapter, translation: JsonChapter,
                ar: seq<string>, en: seq<string>, k: int)
    requires arabic.count == Some(|ar|) && arabic.verse.Some? && translation.verse.Some?
    requires StoresList(arabic.verse.value, ar) && StoresList(translation.verse.value, en)
    requires forall k :: VerseKey(k) in translation.verse.value ==> 1 <= k <= |en|
    requires 0 <= k < |ar|
    ensures KeyedVerses(arabic, translation).Ok?
    ensures KeyedVerses(arabic, translation).value[k] == Verse(ar[k], if k < |en| then en[k] else "")
  {
    var key := VerseKey(k + 1);
    assert key in arabic.verse.value && arabic.verse.value[key] == ar[k];
    if k < |en| {
      assert key in translation.verse.value && translation.verse.value[key] == en[k];
    } else {
      assert key !in translation.verse.value;
    }
  }

  /** Without a `count`, there are no records at all, whatever the objects hold. */
  lemma KeyedWithoutCount(arabic: JsonChapter, translation: JsonChapter)
    requires arabic.count.None?
    ensures KeyedVerses(arabic, translation) == Ok([])
  {
  }

  // ---------------------------------------------------------------- English-driven records

  /** One record per English verse, in order; the Arabic text at the same index, or ""
      where the Arabic list is shorter (IndexError caught). */
  function EnglishDriven(ar: seq<string>, en: seq<string>): (r: seq<Verse>)
    ensures |r| == |en|
    ensures forall k :: 0 <= k < |r| ==> r[k].translation == en[k]
    ensures forall k :: 0 <= k < |r| ==> r[k].arabic == if k < |ar| then ar[k] else ""
  {
    seq(|en|, k requires 0 <= k < |en| => Verse(if k < |ar| then ar[k] else "", en[k]))
  }

  /** The loop over the English verses, where an Arabic index past the end gives empty
      text. */
  method PairByEnglish(ar: seq<string>, en: seq<string>) returns (verses: seq<Verse>)
    ensures verses == EnglishDriven(ar, en)
  {
    verses := [];
    var idx := 0;
    while idx < |en|
      invariant 0 <= idx <= |en|
      invariant verses == EnglishDriven(ar, en)[..idx]
    {
      var arabic := if idx < |ar| then ar[idx] else "";
      verses := verses + [Verse(arabic, en[idx])];
      idx := idx + 1;
    }
  }

  /** English-driven pairing agrees with the zip on the common prefix: it is the zip,
      extended by records with empty Arabic when the English list is longer, and it drops
      the Arabic verses beyond the English list. */
  lemma EnglishDrivenExtendsZip(ar: seq<string>, en: seq<string>)
    ensures EnglishDriven(ar, en)[..Min(|ar|, |en|)] == Zip(ar, en, s => s)
    ensures |ar| >= |en| ==> EnglishDriven(ar, en) == Zip(ar, en, s => s)
    ensures forall k :: |ar| <= k < |en| ==> EnglishDriven(ar, en)[k] == Verse("", en[k])
  {
    var e := EnglishDriven(ar, en);
    var z := Zip(ar, en, s => s);
    assert |e[..Min(|ar|, |en|)]| == |z|;
    forall k | 0 <= k < |z| ensures e[..Min(|ar|, |en|)][k] == z[k] { }
  }
}
