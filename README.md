# Quran recitation video generator: a verified model of its scripts

The repository holds a series of prototype scripts that turn a chapter (surah) of the
Quran into a video. Each video has three parts:

- a recitation as the soundtrack;
- a looped background clip;
- one caption per verse, showing the Arabic text and, in most scripts, its English
  translation.

Two kinds of script exist:

- Streamlit pages: `App/AppT1.py`, `App/AppT5.py`, `App/AppT6.py`, `App/AppT7.py`,
  `Archives/AppT2.py`, `Archives/AppT3.py`, `Archives/appV1.py`, `Archives/appV2.py` and
  `Archives/appV4.py`. The user picks a chapter, a reciter, a background and sometimes a
  verse range, then presses a button.
- Flask handlers: `Archives/AppT1.py`, `Archives/appR1.py`, `Archives/appR4.py` and
  `Archives/appR7.py`. These validate a posted form. appR1 answers with an HTML page; the
  others answer with the written video file.

The scripts share a small vocabulary, modelled once:

- `Outcomes`: the failures a run can stop with, and the HTTP status each one is
  answered with.
- `PyText`: the Python string and integer behaviour the scripts rely on:
  - `str.strip`, `int()`, `str()`;
  - zero padding with `:03d`;
  - `split`, `lower`.
- `Selection`: how a chapter and a verse range are chosen.
  - The three ways of reading a verse range: lenient, strict and two-part.
  - Form validation.
  - Chapter labels, the numbered names file, the chapter records, and chapter
    names resolved to numbers.
- `Pairing`: how Arabic and English verses are paired.
  - Positional zip.
  - Index by index.
  - By `verse_N` keys.
  - English-driven pairing.
- `Timing`: timing of the video's parts.
  - The cut of a verse range out of a whole-chapter recitation.
  - The number of background copies and how they are laid end to end.
  - The equal-share caption schedule.
- `Naming`: names and addresses.
  - File names, per-verse URLs and the per-verse download.
  - The first-match scan of a reciter folder.
  - The file routes and output names.
- `Clips`: the data stores, the caption kinds, and the `Video` value a run produces.
  - `Consistent(v)` states that the background covers the soundtrack and that the
    captions tile it.

Each script is one module (`AppT1`, `AppT5`, `AppT6`, `AppT7`, `ArchiveT1`, `ArchiveT2`,
`ArchiveT3`, `ArchiveR1`, `ArchiveR4`, `ArchiveR7`, `ArchiveV1`, `ArchiveV2`,
`ArchiveV4`) and has the same parts:

- A function `Plan`, or `Post` for a Flask handler. It gives the outcome of one press of
  the button, or one POST, as a value: an error, or the video (or page) the script
  writes.
- Stage functions for the steps after the choice is resolved: `FromRange`,
  `FromNumber` or `FromRequest`.
- A method `Generate` or `HandlePost`. It performs the script's steps in the script's own
  order, with its loops, and is proved equal to `Plan`/`Post`.
- Lemmas `...Stops` state exactly when a run stops, and with which error.
- Lemmas `...Produces` state what a written video shows.

Every loop of the scripts is a method proved against a function. The loops are:

- pairing verses;
- scanning a folder;
- downloading verse files;
- placing or concatenating background copies;
- timing captions, which `App/AppT1.py` does in place in a list, modelled as an array.

What the libraries do is not modelled: the video and audio libraries, the file system,
the network and the clock. Each one becomes a parameter instead:

- The stores are maps from chapter key to verse texts.
- The files present are a set of paths, and a folder listing is a sequence of names.
- A fetch function maps a URL to a response.
- The durations the video library reports are reals.
- The Arabic shaping is a function.

## Model

| member | source | states |
|---|---|---|
| PyText.TrimStart | App/AppT6.py:94 | removes exactly the leading run of whitespace: the result is a suffix of the input, what was cut is all whitespace, and the result does not start with whitespace |
| PyText.TrimEnd | App/AppT6.py:94 | removes exactly the trailing run of whitespace: the result is a prefix, what was cut is all whitespace, and the result does not end with whitespace |
| PyText.Strip | App/AppT6.py:94 | the stripped text is no longer than the input and neither starts nor ends with whitespace |
| PyText.StripEmptyIffBlank | App/AppT5.py:71 | `strip()` is empty exactly when the text is all whitespace, which is the test that selects the whole chapter |
| PyText.StripUnchanged | Archives/AppT3.py:37 | a line with no whitespace at either end is returned unchanged by `strip()` |
| PyText.NatToString | App/AppT1.py:115 | `str` of a natural number is a digit string whose decimal value is that number |
| PyText.ParseDigits | Archives/appV2.py:62-63 | `int()` of a digit string is its decimal value, leading zeros included |
| PyText.ParseNegative | App/AppT1.py:118 | `int()` accepts a minus sign followed by digits and yields the negated value |
| PyText.ParseIntToString | Archives/appR7.py:51-68 | `int(str(n)) == n` for every integer |
| PyText.IntToStringStrips | App/AppT6.py:65 | `str(n)` is non-empty, does not start with whitespace, and is left unchanged by `strip()` |
| PyText.IntToStringInjective | Archives/appR7.py:67-68 | distinct chapter numbers give distinct JSON keys |
| PyText.IntToStringHasNo | App/AppT6.py:160 | `str(n)` holds no `.` and no `_`, and no `-` when n is not negative; these are the separators of labels, ranges and output names |
| PyText.LeadingZerosValue | Archives/appV2.py:63 | zeros in front of a digit string do not change its value |
| PyText.PadLeftValue | Archives/appR7.py:82 | zero padding keeps a digit string's value, and its width becomes the larger of the length and the requested width |
| PyText.Pad3Parses | Archives/appR7.py:82 | `int(f"{n:03d}") == n` |
| PyText.Pad3Width | Archives/appR7.py:82 | for 0..999 the padded number is exactly three digits |
| PyText.Pad3Injective | Archives/appR7.py:82 | distinct numbers have distinct padded forms |
| PyText.Split | App/AppT6.py:96 | `split` always yields at least one part |
| PyText.SplitJoin | App/AppT6.py:96 | joining the parts of `split` with the separator gives back the text, and no part contains the separator |
| PyText.SplitNoSep | App/AppT6.py:96-98 | a text without the separator splits into itself alone |
| PyText.SplitAtFirst | App/AppT6.py:96-98 | splitting `a + sep + t`, with no separator in `a`, yields `a` followed by the parts of `t` |
| PyText.SplitPair | App/AppT6.py:96-98 | `x-y`, with no dash in either part, splits into exactly `[x, y]` |
| PyText.SeparatedEqual | App/AppT6.py:160 | two texts of the form head, separator, tail, with no separator in the heads, are equal only when heads and tails are equal |
| PyText.AfterFirst | Archives/AppT3.py:40 | `split(sep, 1)[1]`: the input is a separator-free head, the separator, then the result |
| Selection.LenientRange | App/AppT6.py:94-106 | the resolved range starts at 1 or later; for a chapter with verses, `1 <= start <= end <= total` |
| Selection.LenientBlank | App/AppT6.py:94-106 | blank range text selects verses 1..total |
| Selection.LenientOfNumbers | Archives/appV4.py:55-63 | when both numbers parse, each is clamped to 1..total and the pair is swapped into order |
| Selection.LenientPair | App/AppT6.py:96-105 | `a-b` resolves to the clamped and ordered pair: an in-range pair is kept, a reversed one is swapped |
| Selection.LenientSingle | App/AppT6.py:97-98 | a single number selects that one verse, clamped |
| Selection.LenientIgnoresTail | App/AppT6.py:96-98 | parts after the second dash are ignored |
| Selection.LenientLeadingDash | App/AppT6.py:96-104 | text starting with a dash fails to parse its first number and falls back to the whole chapter |
| Selection.LenientTrailingDash | App/AppT6.py:96-104 | `n-` fails to parse its second number and falls back to the whole chapter |
| Selection.LenientZeroTotal | App/AppT6.py:99-106 | for a chapter with no verses, blank text gives the empty range 1..0 and any parsed pair gives 1..1 |
| Selection.StrictRange | App/AppT1.py:115-125 | a parsed range starts at 1 or later and, for a chapter with verses, lies in 1..total in order; the only failure is a malformed number |
| Selection.StrictAgreesWithLenient | App/AppT1.py:115-125 | the strict reading fails exactly when the text is not blank and its numbers do not parse; otherwise it equals the lenient reading |
| Selection.StrictLeadingDash | App/AppT1.py:117-118 | text starting with a dash raises instead of falling back |
| Selection.TwoPartRange | App/AppT5.py:70-78 | the start is at least 1 and the end at most the verse count; the pair is not reordered |
| Selection.TwoPartPair | App/AppT5.py:73-78 | `a-b` gives `(max(1, a), min(total, b))` |
| Selection.TwoPartSingle | App/AppT5.py:73-77 | a single number cannot unpack into two and selects the whole chapter |
| Selection.TwoPartThree | App/AppT5.py:73-77 | three or more parts cannot unpack into two and select the whole chapter |
| Selection.TwoPartBlank | App/AppT5.py:71-78 | blank text selects the whole chapter |
| Selection.SurahField | Archives/appR1.py:43-48 | an accepted surah field is a number in 1..114 |
| Selection.ValidateRequest | Archives/appR1.py:39-54 | a request is accepted exactly when the surah is in 1..114 and reciter and background are in the allowed lists; each rejection is a 400, the surah checked first, then the reciter, then the background |
| Selection.SurahFieldAccepts | Archives/appR1.py:43-48 | every chapter number 1..114, written in decimal, is accepted |
| Selection.LabelNumberOfLabel | App/AppT6.py:64-65 | the number read from a label `n. name` is n |
| Selection.ReadSurahNames | Archives/AppT3.py:33-41 | the loop over the names file collects exactly `SurahNamesOf(lines)` |
| Selection.NameOfNumberedLine | Archives/AppT3.py:37-40 | a line `n. name` is kept, and yields the name |
| Selection.NamesOfNumberedLines | Archives/AppT3.py:33-41 | a file of numbered lines yields exactly their names, in order |
| Selection.NamesOfLast | Archives/AppT3.py:35-41 | one more line at the end of the file adds its name at the end of the list |
| Selection.SurahOptionLabel | Archives/AppT3.py:44 | option i carries the value i+1 and a label that starts with i+1 in three digits and ends with the i-th name |
| Selection.Chosen | Archives/AppT3.py:59-63 | picking option k selects chapter k+1 |
| Selection.FirstIndexWithId | Archives/AppT3.py:66 | the position of the first record with the id: no earlier record carries it |
| Selection.FirstWithId | Archives/AppT3.py:66 | no record exactly when none carries the id; otherwise the first record that carries it |
| Selection.NameToIdKeys | Archives/appV2.py:33 | the keys of the name table are exactly the lower-cased chapter names |
| Selection.NameToIdLast | Archives/appV2.py:33 | when names repeat, the last record carrying a name wins |
| Selection.ResolveDigits | Archives/appV2.py:62-63 | a box of digits resolves to its decimal value |
| Selection.ResolveName | Archives/appV2.py:64-68 | any other text fails exactly when no record has that name, ignoring case; otherwise it resolves to the id of the last record with it |
| Selection.NoGenerationForEmptyOrZero | Archives/appV2.py:59-73 | an empty box and `0` generate nothing |
| Pairing.CaptionText | App/AppT6.py:144 | a caption is the Arabic text, a newline, then the translation |
| Pairing.CaptionTextInjective | App/AppT6.py:144 | when the Arabic has no newline, two verses give the same caption exactly when they are equal |
| Pairing.CaptionTranslation | App/AppT6.py:144 | the text after the caption's first newline is the translation |
| Pairing.PySlice | App/AppT1.py:88-89 | Python slicing: the length is clamped to the list and element k is element i+k |
| Pairing.Zip | Archives/AppT1.py:78-80 | as many pairs as the shorter list; pair k is shaped Arabic verse k with English verse k |
| Pairing.PairPositionally | Archives/AppT1.py:78-80 | the loop builds exactly `Zip` |
| Pairing.SelectedPairs | App/AppT6.py:108-115 | the pairs of the two slices `[start-1:end]`: how many, and which verses |
| Pairing.IndexedRecords | App/AppT5.py:79-82 | indexing both lists raises IndexError exactly when a non-empty range ends past the shorter list; otherwise record k is verse start+k of each |
| Pairing.IndexedIsZipOfSlices | App/AppT5.py:79-82 | when indexing succeeds it agrees with zipping the slices, and an empty range gives no records |
| Pairing.VerseKeyInjective | Archives/appR1.py:75 | `verse_i` keys are equal exactly when the numbers are |
| Pairing.KeyedVerses | Archives/appR1.py:72-78 | KeyError exactly when the count is positive and either object lacks `verse`; otherwise one record per number 1..count, with a missing key read as empty text |
| Pairing.ComposeKeyed | Archives/appR1.py:72-78 | the loop builds exactly `KeyedVerses` |
| Pairing.KeyedIsPositional | Archives/appR1.py:72-78 | files that store lists under `verse_1..verse_n` give the positional pairing, padded with empty translations |
| Pairing.KeyedAt | Archives/appR1.py:72-78 | record k is Arabic verse k with English verse k, or with empty text past the English |
| Pairing.KeyedWithoutCount | Archives/appR1.py:74 | without `count` there are no records |
| Pairing.EnglishDriven | Archives/appR7.py:71-78 | one record per English verse; the Arabic is verse k, or empty past the Arabic list |
| Pairing.PairByEnglish | Archives/appR7.py:71-78 | the loop builds exactly `EnglishDriven` |
| Pairing.EnglishDrivenExtendsZip | Archives/appR7.py:71-78 | English-driven pairing extends the positional one, and equals it when the Arabic is at least as long |
| Timing.AudioCut | App/AppT5.py:97-101 | the cut fails with a division by zero exactly when the chapter has no verses |
| Timing.AudioCutLength | App/AppT5.py:98-101 | the cut lasts one equal share of the recitation per selected verse |
| Timing.AudioCutWithin | App/AppT6.py:128-132 | the cut of a valid range lies inside the recitation |
| Timing.AudioCutWhole | App/AppT6.py:128-132 | the whole chapter cuts the whole recitation |
| Timing.AudioCutAdjacent | App/AppT5.py:98-101 | the cuts of adjacent ranges meet |
| Timing.Repetitions | Archives/AppT1.py:104 | at least one copy; the copies last longer than the audio, and one copy fewer would not |
| Timing.FloorBounds | Archives/AppT1.py:104 | floor division bounds: `k * clip <= x < (k + 1) * clip` |
| Timing.Tiling | Archives/AppT1.py:104-106 | copy i starts at `i * clip` and lasts `clip` |
| Timing.TilingContiguous | Archives/AppT1.py:104-106 | the copies start at 0, each ends where the next starts, and the last ends at `count * clip` |
| Timing.TilingCovers | App/AppT5.py:105-106 | every instant of the audio lies in some copy |
| Timing.TiledBackground | Archives/AppT1.py:104-109 | the concatenated background is trimmed to the audio, and its copies last longer than the audio |
| Timing.ConcatenateCopies | Archives/appR7.py:97-102 | the loop that concatenates copy by copy builds exactly `Tiling` |
| Timing.PlaceCopies | Archives/AppT3.py:103-107 | the loop that places copy i at `i * clip` builds exactly `Tiling` |
| Timing.ConditionalBackground | Archives/appR4.py:98-107 | the clip alone when it is at least as long as the audio, otherwise the looped copies; always trimmed to the audio and covering it; a clip of length zero is accepted only under audio of length zero, where it is never looped |
| Timing.ConditionalAgrees | Archives/appR4.py:98-107 | when the clip is shorter or longer than the audio this agrees with the plain loop count; at equal lengths the plain count makes two copies where this makes one |
| Timing.Schedule | App/AppT6.py:140-154 | one timed caption per item, in order |
| Timing.ScheduleTiles | App/AppT6.py:141-153 | caption 0 starts at 0, every caption takes an equal share, each starts where the previous ends, and the last ends with the audio |
| Timing.SchedulePrefixDuration | App/AppT6.py:141-153 | the first k captions take k shares |
| Timing.ScheduleTotal | App/AppT6.py:141-153 | the caption durations add up to the audio |
| Timing.ScheduleDisjoint | App/AppT6.py:141-153 | no two captions are on screen at once |
| Timing.ScheduleCaptions | App/AppT6.py:140-154 | the caption loop builds exactly `Schedule` |
| Timing.TimeInPlace | App/AppT1.py:136-140 | the list of text images is retimed in place to `Schedule` of its own items |
| Clips.Index | Archives/AppT3.py:89 | `store[str(n)]` succeeds exactly when the key is present, and fails with a KeyError otherwise |
| Clips.GetAgreesWithIndex | App/AppT5.py:63-64 | `store.get(str(n), [])` is the indexed list when present and empty otherwise |
| Clips.Lines | App/AppT6.py:140-154 | one text caption per verse, caption k being verse k's caption text |
| Clips.ArabicLines | Archives/AppT3.py:112-124 | one caption per Arabic verse, showing that verse alone |
| Clips.Pictures | App/AppT1.py:87-101 | one picture per pair, showing its Arabic and English |
| Clips.ScheduleIsTiling | App/AppT6.py:140-154 | the schedule tiles the soundtrack |
| Clips.TiledCovers | Archives/AppT1.py:104-109 | a tiled background covers the soundtrack |
| Clips.ConditionalCovers | Archives/appR4.py:98-107 | the conditional background covers the soundtrack |
| Clips.Film | App/AppT6.py:156-160 | a composed video is consistent and carries the given audio, background, output name and items, in order |
| Naming.ArabicFileNamesAgree | Archives/appR1.py:57 | the padded Arabic file name equals the unpadded one exactly for chapters of three digits |
| Naming.AudioFileInjective | Archives/appR7.py:82 | distinct chapters have distinct recitation files |
| Naming.ReciterVerseUrl | App/AppT1.py:68-69 | a URL exists exactly for a known reciter; it starts with the reciter's base and ends in `.mp3` |
| Naming.VerseUrlDecodes | App/AppT1.py:69 | after the base come three digits that give the chapter, three that give the verse, then `.mp3` |
| Naming.VerseUrlInjective | App/AppT1.py:69 | distinct verses have distinct URLs |
| Naming.VerseUrls | App/AppT1.py:71-85 | one URL per verse of the range, in order |
| Naming.VerseUrlsAscending | App/AppT1.py:71-85 | URL k names the chapter and verse start+k |
| Naming.VerseUrlsDistinct | App/AppT1.py:71-85 | no verse is fetched twice |
| Naming.FirstFailure | App/AppT1.py:71-85 | the first URL not answered with 200: all before it succeeded |
| Naming.Download | App/AppT1.py:71-85 | success exactly when every URL answers 200, with the bodies joined in order; otherwise it fails naming one of the URLs |
| Naming.DownloadAudio | App/AppT1.py:71-85 | the download loop computes exactly `Download` of the range's URLs |
| Naming.AllFetched | App/AppT1.py:71-85 | when every URL answers 200, the result is all the bodies |
| Naming.FirstFailureAt | App/AppT1.py:71-85 | the first failing URL is the one before which all succeeded |
| Naming.FirstMatchIndex | App/AppT5.py:85-93 | the position of the first listed name with the prefix and suffix: no earlier name matches |
| Naming.FirstMatch | App/AppT5.py:85-93 | nothing is found exactly when no name matches; otherwise the first match in listing order |
| Naming.FindAudio | App/AppT5.py:85-93 | the scan loop with its `break` returns exactly `FirstMatch` |
| Naming.FirstMatchAt | App/AppT5.py:85-93 | a match preceded by no match is the one found |
| Naming.PlainFileIsFound | App/AppT5.py:85-93 | when `NNN.mp3` is listed, some file is found, and its first three characters give the chapter |
| Naming.DashedPrefixSkipsPlainFile | Archives/appR1.py:83-88 | the dashed prefix never matches the plain `NNN.mp3` |
| Naming.AudioRouteSplits | Archives/appR1.py:93 | the audio link splits into the route's four parts |
| Naming.BackgroundRouteSplits | Archives/appR1.py:94 | the background link splits into the route's three parts |
| Naming.RangeOutputNameInjective | App/AppT6.py:160 | distinct chapter, range and reciter give distinct output files |
| Naming.FieldsEqual | App/AppT6.py:160 | output names with separator-free fields are equal only when every field is equal |
| Naming.ChapterOutputNameInjective | Archives/AppT3.py:133 | distinct chapter and reciter give distinct output files |
| AppT1.Generate | App/AppT1.py:113-150 | the page's steps compute exactly `Plan` |
| AppT1.GenerateRange | App/AppT1.py:127-150 | the steps after the range compute exactly `FromRange` |
| AppT1.PrepareImages | App/AppT1.py:87-101 | a fresh array of one picture per zipped pair, in order |
| AppT1.PlanStops | App/AppT1.py:51-52 | a bad label or an unparsable range stops the run; past those, it stops exactly when a verse download fails or there is no verse to show |
| AppT1.FromRangeStops | App/AppT1.py:127-140 | past the range, a run stops exactly when a download fails, the chapter has no Arabic verses, or the translation ends before the range starts |
| AppT1.PlanProduces | App/AppT1.py:113-150 | a written video shows the strictly resolved range of the labelled chapter |
| AppT1.FromRangeProduces | App/AppT1.py:127-150 | a video shows one picture per verse the two slices share, over the downloaded verses and the looped background, with the range's output name |
| AppT1.AssembleShows | App/AppT1.py:133-150 | the assembled video satisfies `Shows` |
| AppT5.Generate | App/AppT5.py:61-128 | the page's steps, including the zero-length background check before the loop count, compute exactly `Plan` |
| AppT5.PlanStops | App/AppT5.py:63-110 | a run stops exactly when either store lacks the chapter, the range ends past the translation, no recitation file matches, the background has length zero (the loop count divides by it), or the range is inverted; a missing chapter is reported as such |
| AppT5.PlanProduces | App/AppT5.py:61-128 | a video shows one caption per verse of the two-part range, over the cut of the first matching file and the clip looped floor(A/B)+1 times over the cut |
| AppT5.FromRangeProduces | App/AppT5.py:79-128 | the same, once the range is resolved |
| AppT5.AssembleShows | App/AppT5.py:97-128 | the assembled video satisfies `Shows`: captions, cut soundtrack, background `TiledBackground(length, clip)` and output name |
| AppT5.RecordLines | App/AppT5.py:79-82 | for a range inside both lists, caption k is verse start+k of each |
| AppT5.PlanWholeChapter | App/AppT5.py:71-101 | blank range text films every Arabic verse over the whole recitation |
| AppT5.PlainFileFound | App/AppT5.py:85-93 | with `NNN.mp3` in the folder the audio is never missing, and the file used names the chapter |
| AppT6.Generate | App/AppT6.py:62-169 | the label is read, then `GenerateNumber` runs; the page's steps compute exactly `Plan` |
| AppT6.GenerateNumber | App/AppT6.py:85-160 | the steps after the label, with the background file opened after the recitation is cut and the loop count before the caption loop, compute exactly `FromNumber` |
| AppT6.PlanStops | App/AppT6.py:85-141 | a run stops exactly when the label does not parse, either store lacks the chapter, the recitation file is missing, the background file is missing, the background has length zero, or the translation ends before the range starts; a missing chapter is reported as such |
| AppT6.PlanProduces | App/AppT6.py:82-160 | a video shows the leniently resolved range of the labelled chapter over the chosen background, which exists |
| AppT6.FromRangeProduces | App/AppT6.py:108-160 | one caption per verse the two slices share, over the reciter's `NNN.mp3` cut to the range and the clip looped floor(A/B)+1 times over the cut, with the range's output name |
| AppT6.AssembleShows | App/AppT6.py:128-160 | the assembled video satisfies `Shows` |
| AppT7.Generate | App/AppT7.py:105-154 | the page's steps compute exactly `Plan` |
| AppT7.GenerateRange | App/AppT7.py:121-154 | the steps after the range, including the zero-length background check before the copies are concatenated, compute exactly `FromRange` |
| AppT7.PlanStops | App/AppT7.py:109-131 | a bad label or an unparsable range stops the run; past those, it stops exactly when a download fails, the background is missing or has length zero, or there is no verse to show |
| AppT7.FromRangeStops | App/AppT7.py:121-148 | past the range, a run stops exactly when a download fails, the background is missing, the background has length zero, the chapter has no Arabic verses, or the translation ends before the range starts |
| AppT7.PlanProduces | App/AppT7.py:105-154 | a video shows the strictly resolved range of the labelled chapter, over the clip looped floor(A/B)+1 times over the download |
| AppT7.FromRangeProduces | App/AppT7.py:121-154 | one caption per verse the two slices share, over the downloaded verses of the fixed archive, named with `_Sudais` |
| AppT7.AssembleShows | App/AppT7.py:130-154 | the assembled video satisfies `Shows` |
| AppT7.DownloadsRange | App/AppT7.py:70-72 | every file downloaded comes from the fixed archive and names the chapter and the verse start+k |
| ArchiveT1.HandlePost | Archives/AppT1.py:52-140 | the handler's steps, including the division of the loop count by the background's length, compute exactly `Post` |
| ArchiveT1.RequestStops | Archives/AppT1.py:71-113 | a valid request fails exactly when a file it reads is missing (404) or the background has length zero (an uncaught division, 500); the division by the number of records never fails |
| ArchiveT1.PostStatus | Archives/AppT1.py:54-113 | a failed POST answers 400 when validation rejects the form, 500 when every file is present but the background has length zero, and 404 otherwise |
| ArchiveT1.PostProduces | Archives/AppT1.py:52-140 | a written video shows the validated chapter as `Shows` states |
| ArchiveT1.RequestProduces | Archives/AppT1.py:71-140 | the same, from a validated request |
| ArchiveT1.AssembleShows | Archives/AppT1.py:100-137 | one caption per zipped pair, over the whole file and a covering background, written to `final_video.mp4` |
| ArchiveT2.Generate | Archives/AppT2.py:57-120 | the page's steps compute exactly `Plan` |
| ArchiveT2.PlanStops | Archives/AppT2.py:59-91 | a run stops exactly when either store lacks the chapter, no file matches, the background is missing, or the background has length zero; never at the division by the number of records |
| ArchiveT2.PlanProduces | Archives/AppT2.py:57-120 | a video shows what the Flask handler's video shows |
| ArchiveT2.PlanAgreesWithPost | Archives/AppT2.py:51-120 | every widget choice has the outcome of posting the same choice to `Archives/AppT1.py` |
| ArchiveT3.Generate | Archives/AppT3.py:59-135 | the page's steps compute exactly `Plan` |
| ArchiveT3.GenerateNumber | Archives/AppT3.py:87-135 | the steps after the number, including the zero-length background check before the copies are placed, compute exactly `FromNumber` |
| ArchiveT3.PlanStops | Archives/AppT3.py:66-113 | a run stops exactly when the picked chapter has no record, the Arabic file has no verses for it, the `NNN.mp3` is missing, or the background has length zero |
| ArchiveT3.NumberStops | Archives/AppT3.py:89-113 | with the number known, a run stops exactly when the Arabic file lacks the chapter or its verses, the file is missing, or the background has length zero; the failure is a KeyError, a missing file or a division by zero, in that order |
| ArchiveT3.PlanProduces | Archives/AppT3.py:59-135 | a video films the whole chapter at position choice+1 |
| ArchiveT3.NumberProduces | Archives/AppT3.py:87-135 | a video of a number shows every Arabic verse alone, over the whole recitation, named after chapter and reciter |
| ArchiveT3.AssembleShows | Archives/AppT3.py:100-135 | the assembled video satisfies `Shows` |
| ArchiveR1.Spaced | Archives/appR1.py:172 | every underscore is replaced by a space and nothing else changes |
| ArchiveR1.ReciterOptions | Archives/appR1.py:170-173 | one option per allowed reciter: the name as value, the spaced name as text |
| ArchiveR1.FormChoicesValidate | Archives/appR1.py:158-191 | every combination the form offers passes validation |
| ArchiveR1.HandlePost | Archives/appR1.py:37-156 | the handler's steps compute exactly `Post` |
| ArchiveR1.RequestStops | Archives/appR1.py:56-91 | a valid request is answered exactly when both files exist, the verses compose and a dashed file matches; a missing `verse` object is a 500, every other failure a 404 |
| ArchiveR1.PostStatus | Archives/appR1.py:39-54 | a failed POST answers 400 exactly when validation rejects the form |
| ArchiveR1.PostProduces | Archives/appR1.py:37-156 | an answered page shows the validated chapter as `Answers` states |
| ArchiveR1.RequestProduces | Archives/appR1.py:56-156 | the page lists the keyed verses, links the first dashed file and the form's background |
| ArchiveR1.LinkedFileNamesChapter | Archives/appR1.py:82-93 | the linked file starts with the chapter in three digits, then a dash, and ends in `.mp3` |
| ArchiveR1.ServeAudio | Archives/appR1.py:194-206 | a file is served exactly when the reciter is allowed and the file exists; otherwise 404 |
| ArchiveR1.ServeBackground | Archives/appR1.py:209-219 | a file is served exactly when it is an allowed background and exists; otherwise 404 |
| ArchiveR1.RouteOf | Archives/appR1.py:194-210 | a URL is routed to a file route only when it is that route's URL |
| ArchiveR1.AudioLinkServed | Archives/appR1.py:93-206 | the page's audio link reaches the audio route for the linked file, which is served when the folder's files exist |
| ArchiveR1.BackgroundLinkServed | Archives/appR1.py:94-219 | the page's background link reaches the background route, which serves exactly when the file is present |
| ArchiveR1.ReciterNamesPlain | Archives/appR1.py:16-20 | the allowed reciter names are non-empty and hold no slash |
| ArchiveR1.BackgroundNamesPlain | Archives/appR1.py:22-33 | the allowed background names are non-empty and hold no slash |
| ArchiveR4.HandlePost | Archives/appR4.py:38-127 | the handler's steps compute exactly `Post` |
| ArchiveR4.RequestStops | Archives/appR4.py:56-104 | a valid request fails exactly when a file is missing, the verses do not compose, no file matches, the background is missing, or a background of length zero must be looped under a recitation with a length; the missing `verse` object and that division are 500s, the rest 404s |
| ArchiveR4.PostStatus | Archives/appR4.py:40-54 | a failed POST answers 400 exactly when validation rejects the form |
| ArchiveR4.PostProduces | Archives/appR4.py:38-127 | a written video shows the validated chapter as `Shows` states |
| ArchiveR4.RequestProduces | Archives/appR4.py:56-127 | the same, from a validated request |
| ArchiveR4.AssembleShows | Archives/appR4.py:95-124 | one caption per keyed record, none for an empty chapter, over the clip alone when it is long enough |
| ArchiveR7.HandlePost | Archives/appR7.py:45-130 | the handler's steps compute exactly `Post` |
| ArchiveR7.RequestStops | Archives/appR7.py:62-106 | a valid request fails exactly when a store lacks the chapter, a file is missing, the background has length zero, or the English chapter is empty; KeyError and division by zero are 500s, the rest 404s |
| ArchiveR7.PostStatus | Archives/appR7.py:50-60 | a failed POST answers 400 exactly when validation rejects the form |
| ArchiveR7.PostProduces | Archives/appR7.py:45-130 | a written video shows the validated chapter, English-driven |
| ArchiveR7.RequestProduces | Archives/appR7.py:62-130 | the same, from a validated request |
| ArchiveR7.AssembleShows | Archives/appR7.py:96-127 | one caption per English verse with the Arabic of the same index, or nothing past the Arabic |
| ArchiveV1.Generate | Archives/appV1.py:46-89 | the page's steps compute exactly `Plan` |
| ArchiveV1.PlanStops | Archives/appV1.py:46-70 | a run stops exactly when the Arabic file has no verses for the chapter or either file is missing; the failure is the first in the script's order |
| ArchiveV1.PlanProduces | Archives/appV1.py:46-89 | a video films the whole chapter typed in the box |
| ArchiveV1.AssembleShows | Archives/appV1.py:63-89 | every Arabic verse alone, over the whole recitation and the library's loop of the clip |
| ArchiveV2.Generate | Archives/appV2.py:59-122 | the page's steps compute exactly `Plan` |
| ArchiveV2.NameProduces | Archives/appV2.py:64-122 | a chapter name, in any case, films the chapter of the last record carrying it, when its verses and recitation are there and the background has a length |
| ArchiveV2.DigitsProduce | Archives/appV2.py:62-122 | a box of digits films the chapter with that number, and zero generates nothing |
| ArchiveV2.PlanStops | Archives/appV2.py:59-90 | the page stops exactly when the name is unknown, or the number's verses or recitation are missing or its background has length zero; an empty box generates nothing |
| ArchiveV4.RangeTexts | Archives/appV4.py:112-115 | reading the range's verses fails exactly when the range is non-empty and the chapter or its last verse is missing; otherwise text k is verse start+k |
| ArchiveV4.Generate | Archives/appV4.py:76-161 | the page's steps compute exactly `Plan` |
| ArchiveV4.PlanStops | Archives/appV4.py:82-134 | a run stops exactly when the chapter has no record or no verses, its verses cannot be read, the recitation is missing, or the background has length zero |
| ArchiveV4.PlanProduces | Archives/appV4.py:76-161 | a video shows the resolved range as `Shows` states: one caption per selected verse, in order, over the reciter's file cut to the range and the clip looped over the cut, named after chapter, range and reciter |
| ArchiveV4.FromRangeProduces | Archives/appV4.py:110-161 | the same, once the range is resolved |
| ArchiveV4.PlanWholeChapter | Archives/appV4.py:51-54 | blank range text films every verse over the whole recitation |

## Left out

- The media libraries are not modelled. Rendering, composing, encoding, writing the video
  file, fonts and text layout all belong to them. A video is the value that would be
  handed to the library.
- Durations come from the video library and are parameters. This covers the
  recitation's duration, the clip's, and that of the downloaded audio bytes. They are
  taken to be non-negative. A background clip of length zero is modelled: where a script
  divides by it to count the loops, the run stops with `ZeroDivision`.
- The library's own `loop` is not unfolded: `App/AppT1.py` and `Archives/appV1.py` use
  it. The model records it as a background looped to the soundtrack's length.
- Arabic reshaping and bidi reordering are a function parameter `shape`. Drawing the
  caption image in `App/AppT1.py` keeps the two texts as a picture value.
- Loading the JSON files is not modelled. The model reads them as maps from chapter key
  to the verses' `text` fields.
  - Not modelled: invalid JSON, a verse without a `text` field, and the
    `type`/`total_verses` display of `Archives/AppT3.py` and `Archives/appV4.py`.
- File system calls become sets of present paths and sequences of listed names.
  - Not modelled: a missing reciter folder given to `os.listdir`, and listings that
    change during a run.
- The reciter and background lists built from folder listings are parameters. The
  model assumes that the picked background exists in these scripts, which offer only
  the files listed in the backgrounds folder and open the choice without checking:
  - `App/AppT1.py` (listing at :56-57, opened at :132);
  - `App/AppT5.py` (listing at :32, opened at :104);
  - `Archives/AppT3.py`, `Archives/appV2.py` and `Archives/appV4.py`.
- The network is a function from URL to response. Timeouts, partial bodies and the
  temporary file of `App/AppT1.py` and `App/AppT7.py` are not modelled.
- Streamlit widgets, progress bars, the background preview, messages and the download
  button are not modelled, and nor are the HTML of the Flask pages and forms and
  `send_file`. An `st.stop()` or an error message is an `Err` outcome.
- The output folder is not modelled: the `Downloads` folder of `App/AppT1.py` or the
  script's own folder. The output name is.
- An empty option list makes Streamlit's `selectbox` return `None`. That case is not
  modelled: the model requires a real choice.
- `PyText.ParseInt` is `int()` on ASCII text only: spaces, an optional sign, ASCII
  digits. Unicode digits and whitespace, and underscores between digits, are not
  modelled.
- `PyText.Lower` is ASCII only. Python's full Unicode case mapping is not modelled.
- `Archives/appR7.py` and `Archives/appV4.py` call `concatenate_videoclips` as a method of
  a clip, and the library offers no such method. `ArchiveR7.Assemble` and
  `ArchiveV4.FromRange` model the evident intent: copies laid end to end.
- `Archives/appR7.py`, `Archives/appV4.py` and `Archives/AppT3.py` use `subclipped` next
  to `set_start`/`set_position`, from different versions of the library. The model
  reads them all as the operations they name.
- `App/AppT5.py` with an inverted range: the recitation cut comes before the caption
  division. The model reports the failure of the inverted range, not which exception
  the library would raise first.
- `Archives/AppT2.py` and `App/AppT7.py` open the background without checking that it
  exists. The model reports the library's failure to open it as `FileNotFound`.
- `Archives/AppT3.py` and `Archives/appV4.py` look up the chapter record outside the
  `try`. The model reports that failure as the `NoSuchChapter` outcome instead of an
  uncaught page error.
- Exception message text is not modelled; each failure is a `Failure` value.
