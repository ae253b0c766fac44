# gomamayo-rs: junction overlap and classification, in Dafny

A *gomamayo* is a phrase in which the reading of one word ends with the same
sounds that the reading of the next word begins with: ゴマ + マヨ share マ.
The library splits a phrase into words, looks up each word's reading, and
then classifies the phrase by two numbers:

- the **ary**: how many junctions between adjacent readings overlap;
- the **degree**: the length of the longest overlap at any junction.

The overlap at one junction is the largest `d` between 1 and the length of
the shorter reading such that the last `d` characters of the left reading
are the first `d` characters of the right one. The search tries `d` from the
largest value downwards and takes the first match. The phrase gets a kind
`Some { ary, degree }` when the ary is positive and `None` otherwise. The
list of readings is returned with the result, unchanged.

This project models that computation, `compute_ary_and_degree` and the
classification step of `analyze` in `src/lib.rs`, and proves what they
compute.

- `gomamayo.dfy`, module `Gomamayo`: the records `Gomamayo` and
  `GomamayoKind`; the overlap at one junction as a specification function
  (`Overlap`, by the same descending search in `OverlapUpTo`) and as the
  search loop (`FindJunctionDegree`); the list of all junctions' overlaps
  (`Overlaps`), with the ary as the number of non-zero entries
  (`CountOverlapping`) and the degree as the largest (`Longest`); the pass over
  all adjacent pairs (`ComputeAryAndDegree`), proved against the
  specification functions `AryOf` and `DegreeOf`; the lemmas that give those
  functions their meaning (a count of overlapping junctions, a maximum over
  junctions); and `Analyze`, which builds the kind.
- `gomamayo_tests.dfy`, module `GomamayoTests`: every row of the unit test
  table used by `correct_ary_degree`, proved as a lemma, and two phrases that
  show comparison is per character.

Readings are `string`, that is `seq<char>`. A Dafny `char` is a Unicode
scalar value, which is also what Rust's `chars()` yields, so the comparison
is the source's comparison, character by character.

Comparison is per character, as the code does it. A description of this
system also talks about splitting each reading into morae first, with small
kana such as ュ joined to the character before them. No such step exists in
`src/lib.rs`, and this model follows the code. So オレンジ + ジュース overlaps
on ジ (`GomamayoTests.OrenjiJuusu`). The junction ボシュー + シューリョー
overlaps on three characters, not two morae
(`GomamayoTests.TaikoKouboBoshuuShuuryou`).

## Model

| member | source | states |
|---|---|---|
| Gomamayo.OverlapUpTo | src/lib.rs:87-89 | searching lengths `k` down to 1 yields 0 or an overlap of length at most `k`; no length between the result and `k` is an overlap |
| Gomamayo.Overlap | src/lib.rs:87-89 | the junction's overlap is at most the shorter reading's length; it is 0 or a length where the left suffix equals the right prefix; no longer length matches |
| Gomamayo.NoOverlapIffZero | src/lib.rs:87-89 | a junction's overlap is 0 exactly when no length matches; in particular it is 0 when either reading is empty, because the range of lengths is then empty |
| Gomamayo.SlicesEqualIffOverlap | src/lib.rs:89 | comparing the slice `left[len - d..]` with `right[..d]` is the same test as comparing the `d` characters one by one |
| Gomamayo.FindJunctionDegree | src/lib.rs:87-89 | the descending search returns `Some(d)` with `1 <= d <= min(len)`, where `d` is an overlap and no larger length is one; it returns `None` exactly when no length is an overlap; it agrees with `Overlap` |
| Gomamayo.TallyAppend | src/lib.rs:91-94 | one more junction adds one to the count exactly when its overlap is not 0, and the longest overlap becomes the larger of the old one and the new overlap |
| Gomamayo.CountIsCardinality | src/lib.rs:91-94 | the count of a list of overlaps is the number of positions holding a non-zero overlap, and so at most the list's length |
| Gomamayo.LongestIsMaximum | src/lib.rs:91-92 | the longest overlap of a list bounds every entry and is one of them, or is 0 |
| Gomamayo.LongestPositiveIffCounted | src/lib.rs:91-94 | the longest overlap is positive exactly when the count is positive |
| Gomamayo.Overlaps | src/lib.rs:82-89 | the windows of N readings give N - 1 junctions, and entry `i` is the overlap of readings `i` and `i + 1` |
| Gomamayo.AryBound | src/lib.rs:79-97 | there are at most N - 1 overlapping junctions among N readings; with fewer than two readings there are no windows, so ary and degree are both 0 |
| Gomamayo.AryCountsJunctions | src/lib.rs:91-94 | the ary is the number of indices `i` where readings `i` and `i + 1` overlap |
| Gomamayo.AryZeroIffNoOverlap | src/lib.rs:91-94 | the ary is 0 exactly when every junction has overlap 0 |
| Gomamayo.DegreeIsMaximum | src/lib.rs:91-93 | every junction's overlap is at most the degree; the degree is 0 or is the overlap of some junction |
| Gomamayo.DegreePositiveIffAry | src/lib.rs:80-94 | the degree is positive exactly when the ary is positive |
| Gomamayo.ComputeAryAndDegree | src/lib.rs:78-98 | the loop over adjacent pairs returns the ary and degree of `AryOf`/`DegreeOf`; the ary counts the overlapping junctions; the degree bounds every junction's overlap and is reached by one of them, or is 0; degree > 0 exactly when ary > 0 |
| Gomamayo.Analyze | src/lib.rs:103-113 | the readings are returned unchanged; the kind is `None` exactly when no junction overlaps; when present it carries the computed ary and degree, with 0 < ary <= N - 1 and degree > 0 |
| GomamayoTests.GomaMayo | src/lib.rs:128-133 | the readings ゴマ, マヨ have ary 1 and degree 1, as the test table expects |
| GomamayoTests.YasudaDaiSaakasu | src/lib.rs:134-139 | the readings ヤスダ, ダイ, サーカス have ary 1 and degree 1, as the test table expects |
| GomamayoTests.FukuyamaMasaharuSan | src/lib.rs:140-145 | the readings フクヤマ, マサハル, サン have ary 1 and degree 1, as the test table expects |
| GomamayoTests.SewayakiKitsuneNoSenkoSan | src/lib.rs:146-151 | the readings セワ, ヤキ, キツネ, ノ, セン, キツネ, サン have ary 1 and degree 1, as the test table expects |
| GomamayoTests.SairensuSuzuka | src/lib.rs:152-157 | the readings サイレンス, スズカ have ary 1 and degree 1, as the test table expects |
| GomamayoTests.ChoukiKinri | src/lib.rs:158-163 | the readings チョーキ, キンリ have ary 1 and degree 1, as the test table expects |
| GomamayoTests.HakureiReimu | src/lib.rs:164-169 | the readings ハク, レー, レーム have ary 1 and degree 2, as the test table expects |
| GomamayoTests.KabushikiKoukaiKaitsuke | src/lib.rs:170-175 | the readings カブシキ, コーカイ, カイツケ have ary 1 and degree 2, as the test table expects |
| GomamayoTests.JikoKoutei | src/lib.rs:176-181 | the readings ジコ, コーテー have ary 1 and degree 1, as the test table expects |
| GomamayoTests.SenzaiIchiguu | src/lib.rs:182-187 | the readings センザイ, イチグー have ary 1 and degree 1, as the test table expects |
| GomamayoTests.ToushiShintaku | src/lib.rs:188-193 | the readings トーシ, シンタク have ary 1 and degree 1, as the test table expects |
| GomamayoTests.ShoukaKatsudou | src/lib.rs:194-199 | the readings ショーカ, カツドー have ary 1 and degree 1, as the test table expects |
| GomamayoTests.GinkouKouza | src/lib.rs:200-205 | the readings ギンコー, コーザ have ary 1 and degree 2, as the test table expects |
| GomamayoTests.ShinryouUketsuke | src/lib.rs:206-211 | the readings シンリョー, ウケツケ have ary 0 and degree 0, as the test table expects |
| GomamayoTests.OrenjiJuusu | src/lib.rs:87-89 | at character level オレンジ, ジュース have ary 1 and degree 1 (the shared ジ) |
| GomamayoTests.TaikoKouboBoshuuShuuryou | src/lib.rs:87-89 | at character level タイコ, コーボ, ボシュー, シューリョー have ary 3 and degree 3 (the shared シュー is three characters) |

## Left out

- `tokenize_to_pronounciations` (src/lib.rs:43-76): it runs the Lindera tokenizer with the UniDic dictionary, which is foreign code. `Analyze` therefore takes the list of readings that the tokenizer would have produced.
- Analyze: does not model the tokenizer's failure paths, a Lindera error or a token without a reading in detail column 9. Both are produced by the tokenizer step and passed on unchanged by `?`.
- The error types `GomamayoError` and `UnknownPronounciationError` and the `From<LinderaError>` conversion (src/lib.rs:13-29). They only wrap the tokenizer's errors.
- `src/main.rs`: argument iteration, trimming and console output. Its only logic is a match on `kind`, and `Analyze` states when `kind` is present.
- The `correct_tokenize` test (src/lib.rs:214-222). It checks the dictionary's readings, not this code.
- ComputeAryAndDegree: does not model the 32-bit width of `ary` and `degree`. It uses unbounded integers because the `ary += 1` overflow and the `usize` to `i32` cast of a degree both need at least 2^31 readings or a reading of at least 2^31 characters.
- The generic parameter `S: AsRef<str>` of `compute_ary_and_degree`: every reading is modelled directly as a `string`.
- Mora segmentation: there is none in `src/lib.rs`, so the model compares characters (see above).
