/** The constant menu table: four category lists and their concatenation. */
module MenuData {
  import opened Sequences

  /** A category a user can choose; `All` is not a key of `MENUS` but stands
      for the concatenation of every list. */
  datatype Category = Korean | Chinese | Japanese | Western | All {
    /** The string the category is written as. */
    function Key(): string {
      match this
      case Korean => "korean"
      case Chinese => "chinese"
      case Japanese => "japanese"
      case Western => "western"
      case All => "all"
    }
  }

  /** Distinct categories are written as distinct strings, so the string union and the
      datatype say the same thing. */
  lemma KeyInjective(c: Category, d: Category)
    ensures c.Key() == d.Key() <==> c == d
  {
  }

  const KOREAN: seq<string> := [
    "김치찌개", "된장찌개", "부대찌개", "비빔밥", "불고기",
    "삼겹살", "제육볶음", "떡볶이", "순대국", "갈비탕",
    "닭갈비", "찜닭", "족발/보쌈", "감자탕", "칼국수",
    "냉면", "콩국수", "김밥", "설렁탕", "육개장"
  ]

  const CHINESE: seq<string> := [
    "짜장면", "짬뽕", "탕수육", "볶음밥", "마파두부",
    "양꼬치", "마라탕", "마라샹궈", "깐풍기", "유린기",
    "딤섬", "동파육", "고추잡채", "울면", "군만두"
  ]

  const JAPANESE: seq<string> := [
    "초밥(스시)", "돈카츠", "라멘", "우동", "소바(메밀국수)",
    "가츠동(돈까스덮밥)", "규동(소고기덮밥)", "사케동(연어덮밥)",
    "텐동(튀김덮밥)", "오코노미야키", "타코야키", "스키야키",
    "카레라이스", "회(사시미)", "나베"
  ]

  const WESTERN: seq<string> := [
    "피자", "토마토 파스타", "크림 파스타", "스테이크", "수제버거",
    "샐러드", "샌드위치", "리조또", "그라탕", "바베큐 폭립",
    "브런치", "타코/부리또", "감바스", "라자냐", "치킨(프라이드)"
  ]

  /** The record from category key to its list of menu names. */
  const MENUS: map<string, seq<string>> := map[
    "korean" := KOREAN,
    "chinese" := CHINESE,
    "japanese" := JAPANESE,
    "western" := WESTERN
  ]

  /** Every menu name: the four lists in the order korean, chinese, japanese, western. */
  function GetAllMenus(): (r: seq<string>)
    ensures |r| == 65
  {
    MENUS["korean"] + MENUS["chinese"] + MENUS["japanese"] + MENUS["western"]
  }

  /** The concatenation keeps each list whole and in the fixed category order. */
  lemma AllMenusOrder()
    ensures GetAllMenus() == KOREAN + CHINESE + JAPANESE + WESTERN
    ensures GetAllMenus()[..20] == MENUS["korean"] && GetAllMenus()[20..35] == MENUS["chinese"]
    ensures GetAllMenus()[35..50] == MENUS["japanese"] && GetAllMenus()[50..] == MENUS["western"]
  {
    var all := GetAllMenus();
    assert all[..20] == KOREAN && all[20..35] == CHINESE;
    assert all[35..50] == JAPANESE && all[50..] == WESTERN;
  }

  /** The record has exactly the four concrete categories as keys, with the listed sizes. */
  lemma MenusShape()
    ensures MENUS.Keys == {"korean", "chinese", "japanese", "western"}
    ensures All.Key() !in MENUS
    ensures forall c: Category :: c != All ==> c.Key() in MENUS
    ensures |MENUS["korean"]| == 20 && |MENUS["chinese"]| == 15
    ensures |MENUS["japanese"]| == 15 && |MENUS["western"]| == 15
  {
  }

  /** Every concrete category offers at least eight names, and every name is non-empty. */
  lemma CategoriesHoldEight(c: Category)
    requires c != All
    ensures c.Key() in MENUS && |MENUS[c.Key()]| >= 15 >= 8
    ensures forall x :: x in MENUS[c.Key()] ==> x != ""
  {
  }

  lemma NamesNonEmpty()
    ensures forall x :: x in GetAllMenus() ==> x != ""
  {
    CategoriesHoldEight(Korean);
    CategoriesHoldEight(Chinese);
    CategoriesHoldEight(Japanese);
    CategoriesHoldEight(Western);
    AllMenusOrder();
  }

  /** No menu name occurs twice, within or across the lists. */
  lemma {:induction false} NamesDistinct()
    ensures Distinct(GetAllMenus())
    ensures forall c: Category :: c != All ==> Distinct(MENUS[c.Key()])
  {
    KoreanDistinct(); ChineseDistinct(); JapaneseDistinct(); WesternDistinct();
    KoreanApart(); ChineseApart(); JapaneseApart();
    DistinctConcat(KOREAN, CHINESE);
    ApartConcat(KOREAN, CHINESE, JAPANESE);
    DistinctConcat(KOREAN + CHINESE, JAPANESE);
    ApartConcat(KOREAN, CHINESE, WESTERN);
    ApartConcat(KOREAN + CHINESE, JAPANESE, WESTERN);
    DistinctConcat(KOREAN + CHINESE + JAPANESE, WESTERN);
    AllMenusOrder();
  }

  lemma KoreanDistinct() ensures Distinct(KOREAN) {
    KoreanHalves();
    DistinctConcat(KOREAN[..10], KOREAN[10..]);
    assert KOREAN == KOREAN[..10] + KOREAN[10..];
  }
  lemma KoreanHalves() ensures Distinct(KOREAN[..10]) && Distinct(KOREAN[10..]) && Apart(KOREAN[..10], KOREAN[10..]) {
    KoreanFrontDistinct(); KoreanBackDistinct(); KoreanHalvesApart();
  }
  lemma KoreanFrontDistinct() ensures Distinct(KOREAN[..10]) {}
  lemma KoreanBackDistinct() ensures Distinct(KOREAN[10..]) {}
  lemma KoreanHalvesApart() ensures Apart(KOREAN[..10], KOREAN[10..]) {}
  lemma ChineseDistinct() ensures Distinct(CHINESE) {}
  lemma JapaneseDistinct() ensures Distinct(JAPANESE) {}
  lemma WesternDistinct() ensures Distinct(WESTERN) {}
  lemma KoreanApart() ensures Apart(KOREAN, CHINESE) && Apart(KOREAN, JAPANESE) && Apart(KOREAN, WESTERN) {
    KoreanChineseApart(); KoreanJapaneseApart(); KoreanWesternApart();
  }
  lemma KoreanChineseApart() ensures Apart(KOREAN, CHINESE) {}
  lemma KoreanJapaneseApart() ensures Apart(KOREAN, JAPANESE) {}
  lemma KoreanWesternApart() ensures Apart(KOREAN, WESTERN) {}
  lemma ChineseApart() ensures Apart(CHINESE, JAPANESE) && Apart(CHINESE, WESTERN) {
    ChineseJapaneseApart(); ChineseWesternApart();
  }
  lemma ChineseJapaneseApart() ensures Apart(CHINESE, JAPANESE) {}
  lemma ChineseWesternApart() ensures Apart(CHINESE, WESTERN) {}
  lemma JapaneseApart() ensures Apart(JAPANESE, WESTERN) {}
}
