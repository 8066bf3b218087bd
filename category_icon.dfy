/**
 * The category badge (components/shared/CategoryIcon.tsx): the colours and icon
 * shown for a category are picked by the first keyword group found in the
 * lower-cased category name.
 */
module CategoryIcon {
  import opened Common
  import opened Text
  import MerchantRules

  /** Which drawing the badge shows; the drawings themselves are not modelled. */
  datatype IconKind =
    | GroceryIcon | DiningIcon | TransportIcon | ShoppingIcon
    | EntertainmentIcon | BillsIcon | HealthIcon | DefaultIcon

  datatype IconStyle = IconStyle(kind: IconKind, bg: string, color: string)

  /** One `if` of `getCategoryIcon`: any keyword included selects the style. */
  datatype IconRow = IconRow(keywords: seq<string>, style: IconStyle)

  /** The keyword groups, in the order the branches test them. */
  const IconTable: seq<IconRow> := [
    IconRow(["groc"], IconStyle(GroceryIcon, "#DFF5E6", "#0F7A4A")),
    IconRow(["dining", "coffee", "food"], IconStyle(DiningIcon, "#FFE9CC", "#C85A16")),
    IconRow(["transport", "uber", "ride"], IconStyle(TransportIcon, "#DDE9FF", "#1E54D9")),
    IconRow(["shopping"], IconStyle(ShoppingIcon, "#F7DAF0", "#B42773")),
    IconRow(["entertain", "movie", "stream"], IconStyle(EntertainmentIcon, "#EADCFB", "#6B2BD9")),
    IconRow(["bill", "utility"], IconStyle(BillsIcon, "#E9EEF4", "#425466")),
    IconRow(["health", "medical"], IconStyle(HealthIcon, "#F8DADB", "#B0252C"))
  ]

  /** The style when no keyword is found. */
  const DefaultStyle := IconStyle(DefaultIcon, "#E6EDF2", "#4B5563")

  predicate AnyKeyword(keywords: seq<string>, value: string) {
    exists k :: 0 <= k < |keywords| && Contains(value, keywords[k])
  }

  /** Row `i` is the first whose keywords occur in `value`. */
  predicate FirstRowAt(table: seq<IconRow>, i: int, value: string) {
    0 <= i < |table| && AnyKeyword(table[i].keywords, value)
    && forall j :: 0 <= j < i ==> !AnyKeyword(table[j].keywords, value)
  }

  /** The style of the first row whose keywords occur in `value`, else the default. */
  function StyleFor(table: seq<IconRow>, value: string): (r: IconStyle)
    ensures (forall i :: 0 <= i < |table| ==> !AnyKeyword(table[i].keywords, value)) ==> r == DefaultStyle
    ensures forall i :: FirstRowAt(table, i, value) ==> r == table[i].style
  {
    if table == [] then DefaultStyle
    else if AnyKeyword(table[0].keywords, value) then table[0].style
    else
      assert forall i :: FirstRowAt(table, i, value) ==> FirstRowAt(table[1..], i - 1, value);
      StyleFor(table[1..], value)
  }

  /** Some row of the table matches exactly when one of them is the first to match. */
  lemma {:induction false} FirstRowExists(table: seq<IconRow>, i: int, value: string)
    requires 0 <= i < |table| && AnyKeyword(table[i].keywords, value)
    ensures exists k :: FirstRowAt(table, k, value)
    decreases i
  {
    if exists j :: 0 <= j < i && AnyKeyword(table[j].keywords, value) {
      var j :| 0 <= j < i && AnyKeyword(table[j].keywords, value);
      FirstRowExists(table, j, value);
    } else {
      assert FirstRowAt(table, i, value);
    }
  }

  /**
   * `getCategoryIcon`: a null category reads as "", the name is lower-cased, and the
   * first keyword group found decides; the default style exactly when none is found.
   */
  function GetCategoryIcon(category: Option<string>): (r: IconStyle)
    ensures var value := ToLower(if category.Some? then category.value else "");
            && (r == DefaultStyle <==> forall i :: 0 <= i < |IconTable| ==> !AnyKeyword(IconTable[i].keywords, value))
            && (forall i :: FirstRowAt(IconTable, i, value) ==> r == IconTable[i].style)
  {
    var value := ToLower(if category.Some? then category.value else "");
    DefaultMeansNoRow(value);
    StyleFor(IconTable, value)
  }

  /** No table style is the default one, so the default means no row matched. */
  lemma DefaultMeansNoRow(value: string)
    ensures StyleFor(IconTable, value) == DefaultStyle
            ==> forall i :: 0 <= i < |IconTable| ==> !AnyKeyword(IconTable[i].keywords, value)
  {
    if exists i :: 0 <= i < |IconTable| && AnyKeyword(IconTable[i].keywords, value) {
      var i :| 0 <= i < |IconTable| && AnyKeyword(IconTable[i].keywords, value);
      FirstRowExists(IconTable, i, value);
      var k :| FirstRowAt(IconTable, k, value);
      assert IconTable[k].style.kind != DefaultIcon;
    }
  }

  /** The name's case never changes the badge. */
  lemma IconIgnoresCase(name: string)
    ensures GetCategoryIcon(Some(name)) == GetCategoryIcon(Some(ToLower(name)))
  {
    ToLowerIdempotent(name);
  }

  /** A name that mentions groceries gets the grocery badge, whatever else it mentions. */
  lemma GroceryComesFirst(name: string)
    requires Contains(ToLower(name), "groc")
    ensures GetCategoryIcon(Some(name)).kind == GroceryIcon
  {
    assert IconTable[0].keywords[0] == "groc";
    assert FirstRowAt(IconTable, 0, ToLower(name));
  }

  /** The badge of each category of the built-in merchant table, in the table's order. */
  const BuiltInIcons: seq<IconKind> :=
    [GroceryIcon, DiningIcon, TransportIcon, ShoppingIcon, EntertainmentIcon, BillsIcon, HealthIcon, DefaultIcon]

  /**
   * Every category the built-in merchant table can answer with gets its own badge,
   * and "Uncategorized" the default one.
   */
  lemma BuiltInCategoriesHaveTheirIcons(i: int)
    requires 0 <= i < |MerchantRules.BuiltInCategories|
    ensures GetCategoryIcon(Some(MerchantRules.BuiltInCategories[i])).kind == BuiltInIcons[i]
  {
    var category := MerchantRules.BuiltInCategories[i];
    if i == 0 {
      GroceriesBadge(category);
    } else if i == 1 {
      DiningBadge(category);
    } else if i == 2 {
      TransportBadge(category);
    } else if i == 3 {
      ShoppingBadge(category);
    } else if i == 4 {
      EntertainmentBadge(category);
    } else if i == 5 {
      BillsBadge(category);
    } else if i == 6 {
      HealthBadge(category);
    } else {
      UncategorizedBadge(category);
    }
  }

  /** The badge of "Groceries". */
  lemma GroceriesBadge(category: string)
    requires category == "Groceries"
    ensures GetCategoryIcon(Some(category)).kind == GroceryIcon
  {
    var value := ToLower(category);
    assert value == "groceries";
    GroceriesRow(value);
  }

  /** "groceries" is first matched by row 0. */
  lemma GroceriesRow(value: string)
    requires value == "groceries"
    ensures FirstRowAt(IconTable, 0, value)
  {
    ContainsAt(value, "groc", 0);
    RowHits(value, 0, 0);
  }

  /** The badge of "Dining". */
  lemma DiningBadge(category: string)
    requires category == "Dining"
    ensures GetCategoryIcon(Some(category)).kind == DiningIcon
  {
    var value := ToLower(category);
    assert value == "dining";
    DiningRow(value);
  }

  /** "dining" is first matched by row 1. */
  lemma DiningRow(value: string)
    requires value == "dining"
    ensures FirstRowAt(IconTable, 1, value)
  {
    NotContainedChar(value, "groc", 1);
    NoRowBefore(value, 1);
    ContainsAt(value, "dining", 0);
    RowHits(value, 1, 0);
  }

  /** The badge of "Transport". */
  lemma TransportBadge(category: string)
    requires category == "Transport"
    ensures GetCategoryIcon(Some(category)).kind == TransportIcon
  {
    var value := ToLower(category);
    assert value == "transport";
    TransportRow(value);
  }

  /** "transport" is first matched by row 2. */
  lemma TransportRow(value: string)
    requires value == "transport"
    ensures FirstRowAt(IconTable, 2, value)
  {
    NotContainedChar(value, "groc", 0);
    NotContainedChar(value, "dining", 0);
    NotContainedChar(value, "coffee", 0);
    NotContainedChar(value, "food", 0);
    NoRowBefore(value, 2);
    ContainsAt(value, "transport", 0);
    RowHits(value, 2, 0);
  }

  /** The badge of "Shopping". */
  lemma ShoppingBadge(category: string)
    requires category == "Shopping"
    ensures GetCategoryIcon(Some(category)).kind == ShoppingIcon
  {
    var value := ToLower(category);
    assert value == "shopping";
    ShoppingRow(value);
  }

  /** "shopping" is first matched by row 3. */
  lemma ShoppingRow(value: string)
    requires value == "shopping"
    ensures FirstRowAt(IconTable, 3, value)
  {
    NotContainedChar(value, "groc", 1);
    NotContainedChar(value, "dining", 0);
    NotContainedChar(value, "coffee", 0);
    NotContainedChar(value, "food", 0);
    NotContainedChar(value, "transport", 0);
    NotContainedChar(value, "uber", 0);
    NotContainedChar(value, "ride", 0);
    NoRowBefore(value, 3);
    ContainsAt(value, "shopping", 0);
    RowHits(value, 3, 0);
  }

  /** The badge of "Entertainment". */
  lemma EntertainmentBadge(category: string)
    requires category == "Entertainment"
    ensures GetCategoryIcon(Some(category)).kind == EntertainmentIcon
  {
    var value := ToLower(category);
    assert value == "entertainment";
    EntertainmentRow(value);
  }

  /** "entertainment" is first matched by row 4. */
  lemma EntertainmentRow(value: string)
    requires value == "entertainment"
    ensures FirstRowAt(IconTable, 4, value)
  {
    NotContainedChar(value, "groc", 0);
    NotContainedChar(value, "dining", 0);
    NotContainedChar(value, "coffee", 0);
    NotContainedChar(value, "food", 0);
    NotContainedChar(value, "transport", 4);
    NotContainedChar(value, "uber", 0);
    NotContainedChar(value, "ride", 2);
    NotContainedChar(value, "shopping", 0);
    NoRowBefore(value, 4);
    ContainsAt(value, "entertain", 0);
    RowHits(value, 4, 0);
  }

  /** The badge of "Bills". */
  lemma BillsBadge(category: string)
    requires category == "Bills"
    ensures GetCategoryIcon(Some(category)).kind == BillsIcon
  {
    var value := ToLower(category);
    assert value == "bills";
    BillsRow(value);
  }

  /** "bills" is first matched by row 5. */
  lemma BillsRow(value: string)
    requires value == "bills"
    ensures FirstRowAt(IconTable, 5, value)
  {
    NotContainedChar(value, "groc", 0);
    NotContainedChar(value, "dining", 0);
    NotContainedChar(value, "coffee", 0);
    NotContainedChar(value, "food", 0);
    NotContainedChar(value, "transport", 0);
    NotContainedChar(value, "uber", 0);
    NotContainedChar(value, "ride", 0);
    NotContainedChar(value, "shopping", 1);
    NotContainedChar(value, "entertain", 0);
    NotContainedChar(value, "movie", 0);
    NotContainedChar(value, "stream", 1);
    NoRowBefore(value, 5);
    ContainsAt(value, "bill", 0);
    RowHits(value, 5, 0);
  }

  /** The badge of "Health". */
  lemma HealthBadge(category: string)
    requires category == "Health"
    ensures GetCategoryIcon(Some(category)).kind == HealthIcon
  {
    var value := ToLower(category);
    assert value == "health";
    HealthRow(value);
  }

  /** "health" is first matched by row 6. */
  lemma HealthRow(value: string)
    requires value == "health"
    ensures FirstRowAt(IconTable, 6, value)
  {
    NotContainedChar(value, "groc", 0);
    NotContainedChar(value, "dining", 0);
    NotContainedChar(value, "coffee", 0);
    NotContainedChar(value, "food", 0);
    NotContainedChar(value, "transport", 1);
    NotContainedChar(value, "uber", 0);
    NotContainedChar(value, "ride", 0);
    NotContainedChar(value, "shopping", 0);
    NotContainedChar(value, "entertain", 1);
    NotContainedChar(value, "movie", 0);
    NotContainedChar(value, "stream", 0);
    NotContainedChar(value, "bill", 0);
    NotContainedChar(value, "utility", 0);
    NoRowBefore(value, 6);
    ContainsAt(value, "health", 0);
    RowHits(value, 6, 0);
  }

  /** The badge of "Uncategorized". */
  lemma UncategorizedBadge(category: string)
    requires category == "Uncategorized"
    ensures GetCategoryIcon(Some(category)) == DefaultStyle
  {
    var value := ToLower(category);
    assert value == "uncategorized";
    UncategorizedRow(value);
  }

  /** "uncategorized" matches no row. */
  lemma UncategorizedRow(value: string)
    requires value == "uncategorized"
    ensures forall i :: 0 <= i < |IconTable| ==> !AnyKeyword(IconTable[i].keywords, value)
  {
    UncategorizedMissesFirstRows(value);
    UncategorizedMissesLastRows(value);
  }

  lemma UncategorizedMissesFirstRows(value: string)
    requires value == "uncategorized"
    ensures forall i :: 0 <= i < 4 ==> !AnyKeyword(IconTable[i].keywords, value)
  {
    NotContainedChar(value, "groc", 3);
    NotContainedChar(value, "dining", 2);
    NotContainedChar(value, "coffee", 2);
    NotContainedChar(value, "food", 0);
    NotContainedChar(value, "transport", 4);
    NotContainedChar(value, "uber", 1);
    NotContained(value, "ride", 1);
    NotContainedChar(value, "shopping", 0);
    NoRowIn(value, 0, 4);
  }

  lemma UncategorizedMissesLastRows(value: string)
    requires value == "uncategorized"
    ensures forall i :: 4 <= i < 7 ==> !AnyKeyword(IconTable[i].keywords, value)
  {
    NotContainedChar(value, "entertain", 5);
    NotContainedChar(value, "movie", 0);
    NotContainedChar(value, "stream", 0);
    NotContainedChar(value, "bill", 0);
    NotContainedChar(value, "utility", 3);
    NotContainedChar(value, "health", 0);
    NotContainedChar(value, "medical", 0);
    NoRowIn(value, 4, 7);
  }

  /** Keyword `k` of row `i` is found and no earlier row matches: row `i` decides. */
  lemma RowHits(value: string, i: int, k: int)
    requires 0 <= i < |IconTable| && 0 <= k < |IconTable[i].keywords|
    requires Contains(value, IconTable[i].keywords[k])
    requires forall j :: 0 <= j < i ==> !AnyKeyword(IconTable[j].keywords, value)
    ensures FirstRowAt(IconTable, i, value)
  {
  }

  /** The rows before `n` all miss, checked keyword by keyword. */
  lemma NoRowBefore(value: string, n: int)
    requires 0 <= n <= |IconTable|
    requires forall i, k :: 0 <= i < n && 0 <= k < |IconTable[i].keywords| ==> !Contains(value, IconTable[i].keywords[k])
    ensures forall i :: 0 <= i < n ==> !AnyKeyword(IconTable[i].keywords, value)
  {
    NoRowIn(value, 0, n);
  }

  /** The rows from `lo` up to `hi` all miss, checked keyword by keyword. */
  lemma NoRowIn(value: string, lo: int, hi: int)
    requires 0 <= lo <= hi <= |IconTable|
    requires forall i, k :: lo <= i < hi && 0 <= k < |IconTable[i].keywords| ==> !Contains(value, IconTable[i].keywords[k])
    ensures forall i :: lo <= i < hi ==> !AnyKeyword(IconTable[i].keywords, value)
  {
  }

  /**
   * Whatever a merchant is, the category the built-in table picks for it is shown
   * with that category's own badge.
   */
  lemma MerchantCategoryIcon(merchant: string)
    ensures exists i :: 0 <= i < |MerchantRules.BuiltInCategories|
              && MerchantRules.BuiltInCategories[i] == MerchantRules.CategorizeMerchant(merchant)
              && GetCategoryIcon(Some(MerchantRules.CategorizeMerchant(merchant))).kind == BuiltInIcons[i]
  {
    var category := MerchantRules.CategorizeMerchant(merchant);
    var i :| 0 <= i < |MerchantRules.BuiltInCategories| && MerchantRules.BuiltInCategories[i] == category;
    BuiltInCategoriesHaveTheirIcons(i);
  }
}
