/**
 The expectations of the unit test `correct_ary_degree`: for each reading
 list of its table, the ary and the degree the analysis must report.
 For every junction the expected overlap is checked character by character
 (`SearchStopsAt`); the list of the junctions' overlaps is then tallied one
 junction at a time (`TallyAppend`) into the ary and the degree.
 */
module GomamayoTests {
  import opened Gomamayo

  /** The descending search over lengths `k`, `k - 1`, ... stops at `d`: the
      suffix and the prefix of length `d` agree character by character, and
      every longer suffix already starts with a character other than the one
      `right` starts with. */
  lemma {:induction false} SearchStopsAt(left: string, right: string, d: nat, k: nat)
    requires d <= k <= Min(|left|, |right|)
    requires d == 0 || forall j :: 0 <= j < d ==> left[|left| - d + j] == right[j]
    requires forall j :: |left| - k <= j < |left| - d ==> left[j] != right[0]
    ensures OverlapUpTo(left, right, k) == d
    decreases k
  {
    if k > d {
      assert left[|left| - k + 0] != right[0];
      SearchStopsAt(left, right, d, k - 1);
    }
  }

  /** ゴママヨ: ary 1, degree 1. */
  lemma GomaMayo(rs: seq<string>)
    requires rs == ["ゴマ", "マヨ"]
    ensures AryOf(rs) == 1 && DegreeOf(rs) == 1
  {
    var overlaps := Overlaps(rs);
    SearchStopsAt(rs[0], rs[1], 1, 2);
    assert overlaps == [1];
    TallyAppend([], 1);
  }

  /** 安田大サーカス: ary 1, degree 1. */
  lemma YasudaDaiSaakasu(rs: seq<string>)
    requires rs == ["ヤスダ", "ダイ", "サーカス"]
    ensures AryOf(rs) == 1 && DegreeOf(rs) == 1
  {
    var overlaps := Overlaps(rs);
    SearchStopsAt(rs[0], rs[1], 1, 2);
    SearchStopsAt(rs[1], rs[2], 0, 2);
    assert overlaps == [1, 0];
    TallyAppend([], 1);
    assert [1, 0] == [1] + [0];
    TallyAppend([1], 0);
  }

  /** 福山雅治さん: ary 1, degree 1. */
  lemma FukuyamaMasaharuSan(rs: seq<string>)
    requires rs == ["フクヤマ", "マサハル", "サン"]
    ensures AryOf(rs) == 1 && DegreeOf(rs) == 1
  {
    var overlaps := Overlaps(rs);
    SearchStopsAt(rs[0], rs[1], 1, 4);
    SearchStopsAt(rs[1], rs[2], 0, 2);
    assert overlaps == [1, 0];
    TallyAppend([], 1);
    assert [1, 0] == [1] + [0];
    TallyAppend([1], 0);
  }

  /** 世話やきキツネの仙狐さん: ary 1, degree 1. */
  lemma SewayakiKitsuneNoSenkoSan(rs: seq<string>)
    requires rs == ["セワ", "ヤキ", "キツネ", "ノ", "セン", "キツネ", "サン"]
    ensures AryOf(rs) == 1 && DegreeOf(rs) == 1
  {
    var overlaps := Overlaps(rs);
    SearchStopsAt(rs[0], rs[1], 0, 2);
    SearchStopsAt(rs[1], rs[2], 1, 2);
    SearchStopsAt(rs[2], rs[3], 0, 1);
    SearchStopsAt(rs[3], rs[4], 0, 1);
    SearchStopsAt(rs[4], rs[5], 0, 2);
    SearchStopsAt(rs[5], rs[6], 0, 2);
    assert overlaps == [0, 1, 0, 0, 0, 0];
    TallyAppend([], 0);
    assert [0, 1] == [0] + [1];
    TallyAppend([0], 1);
    assert [0, 1, 0] == [0, 1] + [0];
    TallyAppend([0, 1], 0);
    assert [0, 1, 0, 0] == [0, 1, 0] + [0];
    TallyAppend([0, 1, 0], 0);
    assert [0, 1, 0, 0, 0] == [0, 1, 0, 0] + [0];
    TallyAppend([0, 1, 0, 0], 0);
    assert [0, 1, 0, 0, 0, 0] == [0, 1, 0, 0, 0] + [0];
    TallyAppend([0, 1, 0, 0, 0], 0);
  }

  /** サイレンススズカ: ary 1, degree 1. */
  lemma SairensuSuzuka(rs: seq<string>)
    requires rs == ["サイレンス", "スズカ"]
    ensures AryOf(rs) == 1 && DegreeOf(rs) == 1
  {
    var overlaps := Overlaps(rs);
    SearchStopsAt(rs[0], rs[1], 1, 3);
    assert overlaps == [1];
    TallyAppend([], 1);
  }

  /** 長期金利: ary 1, degree 1. */
  lemma ChoukiKinri(rs: seq<string>)
    requires rs == ["チョーキ", "キンリ"]
    ensures AryOf(rs) == 1 && DegreeOf(rs) == 1
  {
    var overlaps := Overlaps(rs);
    SearchStopsAt(rs[0], rs[1], 1, 3);
    assert overlaps == [1];
    TallyAppend([], 1);
  }

  /** 博麗霊夢: ary 1, degree 2. */
  lemma HakureiReimu(rs: seq<string>)
    requires rs == ["ハク", "レー", "レーム"]
    ensures AryOf(rs) == 1 && DegreeOf(rs) == 2
  {
    var overlaps := Overlaps(rs);
    SearchStopsAt(rs[0], rs[1], 0, 2);
    SearchStopsAt(rs[1], rs[2], 2, 2);
    assert overlaps == [0, 2];
    TallyAppend([], 0);
    assert [0, 2] == [0] + [2];
    TallyAppend([0], 2);
  }

  /** 株式公開買い付け: ary 1, degree 2. */
  lemma KabushikiKoukaiKaitsuke(rs: seq<string>)
    requires rs == ["カブシキ", "コーカイ", "カイツケ"]
    ensures AryOf(rs) == 1 && DegreeOf(rs) == 2
  {
    var overlaps := Overlaps(rs);
    SearchStopsAt(rs[0], rs[1], 0, 4);
    SearchStopsAt(rs[1], rs[2], 2, 4);
    assert overlaps == [0, 2];
    TallyAppend([], 0);
    assert [0, 2] == [0] + [2];
    TallyAppend([0], 2);
  }

  /** 自己肯定: ary 1, degree 1. */
  lemma JikoKoutei(rs: seq<string>)
    requires rs == ["ジコ", "コーテー"]
    ensures AryOf(rs) == 1 && DegreeOf(rs) == 1
  {
    var overlaps := Overlaps(rs);
    SearchStopsAt(rs[0], rs[1], 1, 2);
    assert overlaps == [1];
    TallyAppend([], 1);
  }

  /** 千載一遇: ary 1, degree 1. */
  lemma SenzaiIchiguu(rs: seq<string>)
    requires rs == ["センザイ", "イチグー"]
    ensures AryOf(rs) == 1 && DegreeOf(rs) == 1
  {
    var overlaps := Overlaps(rs);
    SearchStopsAt(rs[0], rs[1], 1, 4);
    assert overlaps == [1];
    TallyAppend([], 1);
  }

  /** 投資信託: ary 1, degree 1. */
  lemma ToushiShintaku(rs: seq<string>)
    requires rs == ["トーシ", "シンタク"]
    ensures AryOf(rs) == 1 && DegreeOf(rs) == 1
  {
    var overlaps := Overlaps(rs);
    SearchStopsAt(rs[0], rs[1], 1, 3);
    assert overlaps == [1];
    TallyAppend([], 1);
  }

  /** 消火活動: ary 1, degree 1. */
  lemma ShoukaKatsudou(rs: seq<string>)
    requires rs == ["ショーカ", "カツドー"]
    ensures AryOf(rs) == 1 && DegreeOf(rs) == 1
  {
    var overlaps := Overlaps(rs);
    SearchStopsAt(rs[0], rs[1], 1, 4);
    assert overlaps == [1];
    TallyAppend([], 1);
  }

  /** 銀行口座: ary 1, degree 2. */
  lemma GinkouKouza(rs: seq<string>)
    requires rs == ["ギンコー", "コーザ"]
    ensures AryOf(rs) == 1 && DegreeOf(rs) == 2
  {
    var overlaps := Overlaps(rs);
    SearchStopsAt(rs[0], rs[1], 2, 3);
    assert overlaps == [2];
    TallyAppend([], 2);
  }

  /** 診療受付: ary 0, degree 0. */
  lemma ShinryouUketsuke(rs: seq<string>)
    requires rs == ["シンリョー", "ウケツケ"]
    ensures AryOf(rs) == 0 && DegreeOf(rs) == 0
  {
    var overlaps := Overlaps(rs);
    SearchStopsAt(rs[0], rs[1], 0, 4);
    assert overlaps == [0];
    TallyAppend([], 0);
  }

  // Comparison is per character: a small kana is not joined to the character
  // before it, so these two phrases come out differently than they would if
  // readings were first split into morae.

  /** オレンジジュース: "ジ" ends the left reading and starts the right one: ary 1, degree 1. */
  lemma OrenjiJuusu(rs: seq<string>)
    requires rs == ["オレンジ", "ジュース"]
    ensures AryOf(rs) == 1 && DegreeOf(rs) == 1
  {
    var overlaps := Overlaps(rs);
    SearchStopsAt(rs[0], rs[1], 1, 4);
    assert overlaps == [1];
    TallyAppend([], 1);
  }

  /** タイコ, コーボ, ボシュー, シューリョー: the last junction shares the three characters "シュー": ary 3, degree 3. */
  lemma TaikoKouboBoshuuShuuryou(rs: seq<string>)
    requires rs == ["タイコ", "コーボ", "ボシュー", "シューリョー"]
    ensures AryOf(rs) == 3 && DegreeOf(rs) == 3
  {
    var overlaps := Overlaps(rs);
    SearchStopsAt(rs[0], rs[1], 1, 3);
    SearchStopsAt(rs[1], rs[2], 1, 3);
    SearchStopsAt(rs[2], rs[3], 3, 4);
    assert overlaps == [1, 1, 3];
    TallyAppend([], 1);
    assert [1, 1] == [1] + [1];
    TallyAppend([1], 1);
    assert [1, 1, 3] == [1, 1] + [3];
    TallyAppend([1, 1], 3);
  }
}
