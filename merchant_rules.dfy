/**
 * Merchant categorisation (lib/imports/merchantRules.ts): the merchant key
 * normalisation, the user's own rules (literal or regular expression, first
 * match wins) and the built-in keyword table that decides otherwise.
 */
module MerchantRules {
  import opened Common
  import opened Text

  // ---------------------------------------------------------------------------
  // normalizeMerchantKey

  /** The characters `[a-z0-9\s]` keeps in place; every other one becomes a space. */
  predicate KeptChar(c: char) { IsLowerLetter(c) || IsDigit(c) || IsSpace(c) }

  /** A character a normalised merchant key may hold. */
  predicate KeyChar(c: char) { IsLowerLetter(c) || IsDigit(c) || c == ' ' }

  predicate NoDoubleSpace(s: string) {
    forall i :: 0 <= i < |s| - 1 ==> !(s[i] == ' ' && s[i + 1] == ' ')
  }

  /** The shape every normalised key has: small letters, digits and single inner spaces. */
  predicate IsNormalizedKey(s: string) {
    (forall i :: 0 <= i < |s| ==> KeyChar(s[i]))
    && NoDoubleSpace(s)
    && (s == [] || (s[0] != ' ' && s[|s| - 1] != ' '))
  }

  /** `.replace(/[^a-z0-9\s]/g, ' ')` */
  function ReplaceSymbols(s: string): (r: string)
    ensures |r| == |s|
    ensures forall i :: 0 <= i < |s| ==> r[i] == if KeptChar(s[i]) then s[i] else ' '
  {
    if s == [] then [] else [if KeptChar(s[0]) then s[0] else ' '] + ReplaceSymbols(s[1..])
  }

  /** `.replace(/\s+/g, ' ')`: every maximal run of white space becomes one space. */
  function CollapseSpaces(s: string): (r: string)
    ensures |r| <= |s|
    ensures r == [] <==> s == []
    ensures r != [] ==> (r[0] == ' ' <==> IsSpace(s[0]))
    decreases |s|
  {
    if s == [] then []
    else if IsSpace(s[0]) then [' '] + CollapseSpaces(TrimStart(s[1..]))
    else [s[0]] + CollapseSpaces(s[1..])
  }

  /** Collapsing a string of kept characters leaves key characters and no two spaces in a row. */
  lemma {:induction false} CollapseMakesKeyChars(s: string)
    requires forall i :: 0 <= i < |s| ==> KeptChar(s[i])
    ensures forall i :: 0 <= i < |CollapseSpaces(s)| ==> KeyChar(CollapseSpaces(s)[i])
    ensures NoDoubleSpace(CollapseSpaces(s))
    decreases |s|
  {
    if s != [] {
      var tail := if IsSpace(s[0]) then TrimStart(s[1..]) else s[1..];
      assert forall i :: 0 <= i < |tail| ==> KeptChar(tail[i]) by {
        forall i | 0 <= i < |tail| ensures KeptChar(tail[i]) {
          assert tail[i] == s[|s| - |tail| + i];
        }
      }
      CollapseMakesKeyChars(tail);
      var head := if IsSpace(s[0]) then ' ' else s[0];
      var r := CollapseSpaces(s);
      var rt := CollapseSpaces(tail);
      assert r == [head] + rt;
      forall i | 0 <= i < |r| ensures KeyChar(r[i]) {
        if i > 0 { assert r[i] == rt[i - 1]; }
      }
      forall i | 0 <= i < |r| - 1 ensures !(r[i] == ' ' && r[i + 1] == ' ') {
        if i > 0 {
          assert r[i] == rt[i - 1] && r[i + 1] == rt[i];
        } else if head == ' ' {
          assert rt[0] == ' ' <==> IsSpace(tail[0]);
        }
      }
    }
  }

  /** The key under which a merchant is matched and remembered. */
  function NormalizeMerchantKey(value: string): (r: string)
    ensures IsNormalizedKey(r)
  {
    var c := CollapseSpaces(ReplaceSymbols(ToLower(value)));
    CollapseMakesKeyChars(ReplaceSymbols(ToLower(value)));
    TrimCollapsed(c);
    Trim(c)
  }

  /** Trimming keeps the alphabet and the single spacing of a collapsed string. */
  lemma TrimCollapsed(c: string)
    requires forall i :: 0 <= i < |c| ==> KeyChar(c[i])
    requires NoDoubleSpace(c)
    ensures IsNormalizedKey(Trim(c))
  {
    var t := TrimStart(c);
    var r := TrimEnd(t);
    var a := |c| - |t|;
    forall i | 0 <= i < |r| ensures r[i] == c[a + i] {
      assert r[i] == t[i];
    }
    forall i | 0 <= i < |r| ensures KeyChar(r[i]) {
      assert r[i] == c[a + i];
    }
    forall i | 0 <= i < |r| - 1 ensures !(r[i] == ' ' && r[i + 1] == ' ') {
      assert r[i] == c[a + i] && r[i + 1] == c[a + i + 1];
    }
    if r != [] {
      assert r[0] == t[0];
    }
  }

  /** An already normalised key is its own normalisation. */
  lemma {:induction false} NormalizeFixesKeys(s: string)
    requires IsNormalizedKey(s)
    ensures NormalizeMerchantKey(s) == s
  {
    forall i | 0 <= i < |s| ensures !IsUpperLetter(s[i]) { assert KeyChar(s[i]); }
    ToLowerOfLower(s);
    assert ReplaceSymbols(s) == s;
    CollapseFixesSingleSpaced(s);
  }

  lemma {:induction false} CollapseFixesSingleSpaced(s: string)
    requires forall i :: 0 <= i < |s| ==> KeyChar(s[i])
    requires NoDoubleSpace(s)
    ensures CollapseSpaces(s) == s
    decreases |s|
  {
    if s != [] {
      assert NoDoubleSpace(s[1..]) by {
        forall i | 0 <= i < |s[1..]| - 1 ensures !(s[1..][i] == ' ' && s[1..][i + 1] == ' ') {
          assert s[1..][i] == s[i + 1] && s[1..][i + 1] == s[i + 2];
        }
      }
      if IsSpace(s[0]) {
        assert |s| > 1 ==> s[1] != ' ' && KeyChar(s[1]) && !IsSpace(s[1]);
        assert TrimStart(s[1..]) == s[1..];
        CollapseFixesSingleSpaced(s[1..]);
        assert s[0] == ' ';
      } else {
        CollapseFixesSingleSpaced(s[1..]);
      }
    }
  }

  /** `normalizeMerchantKey` is idempotent. */
  lemma NormalizeIdempotent(value: string)
    ensures NormalizeMerchantKey(NormalizeMerchantKey(value)) == NormalizeMerchantKey(value)
  {
    NormalizeFixesKeys(NormalizeMerchantKey(value));
  }

  // ---------------------------------------------------------------------------
  // applyMerchantRules

  /** A rule the user saved: a literal key or a regular expression, and its category. */
  datatype MerchantRule = MerchantRule(matchText: string, category: string, isRegex: bool)

  /** A row of `merchant_rules` as read back: `match_text` may be null. */
  datatype StoredRule = StoredRule(matchText: Option<string>, category: string, isRegex: bool)

  /** What `new RegExp(pattern, 'i').test(subject)` does: throw while compiling, or answer. */
  datatype RegexTest = CompileError | NoMatch | Match

  /**
   * The JavaScript regular-expression engine, left uninterpreted: it is given the
   * pattern (compiled with the case-insensitive flag) and the text to test.
   */
  type RegexEngine = (string, string) -> RegexTest

  /**
   * A rule matches when its text is not empty and either, as a regular expression,
   * compiles and finds the original merchant text, or, as a literal, occurs in the
   * normalised merchant key exactly as stored.
   */
  predicate RuleMatches(rule: MerchantRule, merchant: string, normalized: string, engine: RegexEngine) {
    rule.matchText != ""
    && if rule.isRegex then engine(rule.matchText, merchant) == Match
       else Contains(normalized, rule.matchText)
  }

  /** Rule `i` matches and no earlier one does. */
  predicate FirstMatchAt(rules: seq<MerchantRule>, i: int, merchant: string, normalized: string, engine: RegexEngine) {
    0 <= i < |rules|
    && RuleMatches(rules[i], merchant, normalized, engine)
    && forall j :: 0 <= j < i ==> !RuleMatches(rules[j], merchant, normalized, engine)
  }

  function FirstRuleCategory(rules: seq<MerchantRule>, merchant: string, normalized: string, engine: RegexEngine): (r: Option<string>)
    ensures r.None? <==> forall i :: 0 <= i < |rules| ==> !RuleMatches(rules[i], merchant, normalized, engine)
    ensures r.Some? ==> exists i :: FirstMatchAt(rules, i, merchant, normalized, engine) && r.value == rules[i].category
  {
    if rules == [] then None
    else if RuleMatches(rules[0], merchant, normalized, engine) then
      assert FirstMatchAt(rules, 0, merchant, normalized, engine);
      Some(rules[0].category)
    else
      var r := FirstRuleCategory(rules[1..], merchant, normalized, engine);
      FirstMatchShifts(rules, r, merchant, normalized, engine);
      r
  }

  /** A first match in the tail, behind a rule that does not match, is a first match of the whole list. */
  lemma FirstMatchShifts(rules: seq<MerchantRule>, r: Option<string>, merchant: string, normalized: string, engine: RegexEngine)
    requires rules != [] && !RuleMatches(rules[0], merchant, normalized, engine)
    requires r.Some? ==> exists i :: FirstMatchAt(rules[1..], i, merchant, normalized, engine) && r.value == rules[1..][i].category
    ensures r.Some? ==> exists i :: FirstMatchAt(rules, i, merchant, normalized, engine) && r.value == rules[i].category
  {
    if r.Some? {
      var i :| FirstMatchAt(rules[1..], i, merchant, normalized, engine) && r.value == rules[1..][i].category;
      assert FirstMatchAt(rules, i + 1, merchant, normalized, engine);
    }
  }

  /**
   * `applyMerchantRules`: the category of the first rule, in list order, that matches
   * the merchant; `None` (null) when no rule does.
   */
  function ApplyMerchantRules(merchant: string, rules: seq<MerchantRule>, engine: RegexEngine): (r: Option<string>)
    ensures r.None? <==> forall i :: 0 <= i < |rules| ==> !RuleMatches(rules[i], merchant, NormalizeMerchantKey(merchant), engine)
    ensures r.Some? ==> exists i :: FirstMatchAt(rules, i, merchant, NormalizeMerchantKey(merchant), engine) && r.value == rules[i].category
  {
    FirstRuleCategory(rules, merchant, NormalizeMerchantKey(merchant), engine)
  }

  /** The first matching rule is the one `applyMerchantRules` answers with. */
  lemma ApplyFirstMatch(merchant: string, rules: seq<MerchantRule>, engine: RegexEngine, i: nat)
    requires FirstMatchAt(rules, i, merchant, NormalizeMerchantKey(merchant), engine)
    ensures ApplyMerchantRules(merchant, rules, engine) == Some(rules[i].category)
  {
    var key := NormalizeMerchantKey(merchant);
    forall k | FirstMatchAt(rules, k, merchant, key, engine) ensures k == i {
    }
  }

  /**
   * Rules placed after a list decide only when nothing in the list matched: the
   * search stops at the first hit and otherwise carries on past a rule whose text
   * is empty or whose pattern does not compile.
   */
  lemma {:induction false} ApplyRulesAppend(merchant: string, rules: seq<MerchantRule>, more: seq<MerchantRule>, engine: RegexEngine)
    ensures ApplyMerchantRules(merchant, rules + more, engine)
         == if ApplyMerchantRules(merchant, rules, engine).Some? then ApplyMerchantRules(merchant, rules, engine)
            else ApplyMerchantRules(merchant, more, engine)
  {
    FirstRuleAppend(rules, more, merchant, NormalizeMerchantKey(merchant), engine);
  }

  lemma {:induction false} FirstRuleAppend(rules: seq<MerchantRule>, more: seq<MerchantRule>, merchant: string, normalized: string, engine: RegexEngine)
    ensures FirstRuleCategory(rules + more, merchant, normalized, engine)
         == if FirstRuleCategory(rules, merchant, normalized, engine).Some? then FirstRuleCategory(rules, merchant, normalized, engine)
            else FirstRuleCategory(more, merchant, normalized, engine)
  {
    if rules == [] {
      assert rules + more == more;
    } else {
      assert (rules + more)[0] == rules[0];
      assert (rules + more)[1..] == rules[1..] + more;
      FirstRuleAppend(rules[1..], more, merchant, normalized, engine);
    }
  }

  /** A rule whose text is empty never decides, wherever it stands in the list. */
  lemma EmptyRuleIsSkipped(merchant: string, before: seq<MerchantRule>, category: string, isRegex: bool, after: seq<MerchantRule>, engine: RegexEngine)
    ensures ApplyMerchantRules(merchant, before + [MerchantRule("", category, isRegex)] + after, engine)
         == ApplyMerchantRules(merchant, before + after, engine)
  {
    var skipped := MerchantRule("", category, isRegex);
    ApplyRulesAppend(merchant, before + [skipped], after, engine);
    ApplyRulesAppend(merchant, before, [skipped], engine);
    ApplyRulesAppend(merchant, before, after, engine);
    assert !RuleMatches(skipped, merchant, NormalizeMerchantKey(merchant), engine);
  }

  /** A regular-expression rule that fails to compile is passed over and the search goes on. */
  lemma BadRegexIsSkipped(merchant: string, rule: MerchantRule, rest: seq<MerchantRule>, engine: RegexEngine)
    requires rule.isRegex && engine(rule.matchText, merchant) == CompileError
    ensures ApplyMerchantRules(merchant, [rule] + rest, engine) == ApplyMerchantRules(merchant, rest, engine)
  {
    ApplyRulesAppend(merchant, [rule], rest, engine);
  }

  // ---------------------------------------------------------------------------
  // The built-in keyword table and categorizeMerchant

  /**
   * A built-in pattern: words separated by `\s*` (any run of white space, possibly
   * empty); a pattern of one word is a plain literal.
   */
  datatype Pattern = Pattern(words: seq<string>)

  function Lit(w: string): Pattern { Pattern([w]) }

  /** The words match starting exactly at position `i` of `text`. */
  predicate WordsAt(text: string, i: nat, words: seq<string>)
    decreases |words|, 0, 0
  {
    words == []
    || (i + |words[0]| <= |text| && MatchAt(text, words[0], i, 0)
        && GapThenWords(text, i + |words[0]|, words[1..]))
  }

  /** After skipping some white space from position `j`, the words match. */
  predicate GapThenWords(text: string, j: nat, words: seq<string>)
    decreases |words|, 1, |text| - j
  {
    WordsAt(text, j, words) || (j < |text| && IsSpace(text[j]) && GapThenWords(text, j + 1, words))
  }

  /** `pattern.test(text)`: the pattern matches at some position at or after `i`. */
  predicate PatternFrom(p: Pattern, text: string, i: nat)
    decreases |text| - i
  {
    WordsAt(text, i, p.words) || (i < |text| && PatternFrom(p, text, i + 1))
  }

  predicate PatternTest(p: Pattern, text: string) { PatternFrom(p, text, 0) }

  /** A literal pattern matches exactly the texts that include its word. */
  lemma LiteralTest(w: string, text: string)
    ensures PatternTest(Lit(w), text) <==> Contains(text, w)
  {
    LiteralFrom(w, text, 0);
  }

  lemma {:induction false} LiteralFrom(w: string, text: string, i: nat)
    requires i <= |text|
    ensures PatternFrom(Lit(w), text, i) <==> ContainsFrom(text, w, i)
    decreases |text| - i
  {
    assert Lit(w).words[1..] == [];
    assert GapThenWords(text, i + |w|, []);
    if i < |text| {
      LiteralFrom(w, text, i + 1);
    }
  }

  datatype CategoryRule = CategoryRule(category: string, patterns: seq<Pattern>)

  /** The `categoryRules` table, in its order of precedence. */
  const CategoryTable: seq<CategoryRule> := [
    CategoryRule("Groceries", [
      Lit("walmart"), Pattern(["whole", "foods"]), Pattern(["trader", "joe"]), Lit("kroger"),
      Pattern(["harris", "teeter"]), Lit("giant"), Lit("safeway"), Lit("aldi"), Lit("costco"),
      Lit("grocery"), Lit("supermarket")]),
    CategoryRule("Dining", [
      Lit("starbucks"), Lit("cafe"), Lit("coffee"), Lit("restaurant"), Lit("domino"), Lit("pizza"),
      Lit("tiffin"), Lit("bakery"), Lit("diner"), Lit("grill"), Pattern(["hello", "2", "india"])]),
    CategoryRule("Transport", [
      Lit("uber"), Lit("lyft"), Lit("taxi"), Lit("shell"), Lit("chevron"), Lit("exxon"), Lit("bp")]),
    CategoryRule("Shopping", [
      Lit("amazon"), Lit("amzn"), Lit("target"), Pattern(["best", "buy"]), Lit("walmart.com"),
      Pattern(["dollar", "tree"]), Lit("shop")]),
    CategoryRule("Entertainment", [
      Lit("netflix"), Lit("spotify"), Lit("hulu"), Lit("cinemark"), Lit("movie"),
      Pattern(["youtube", "member"])]),
    CategoryRule("Bills", [Lit("rent"), Lit("mortgage"), Lit("utility"), Lit("internet"), Lit("payment")]),
    CategoryRule("Health", [Lit("pharmacy"), Lit("cvs"), Lit("clinic"), Lit("dermatology"), Lit("health")])
  ]

  const Uncategorized := "Uncategorized"

  /** The eight categories `categorizeMerchant` can answer with. */
  const BuiltInCategories: seq<string> :=
    ["Groceries", "Dining", "Transport", "Shopping", "Entertainment", "Bills", "Health", Uncategorized]

  /** `rule.patterns.some((pattern) => pattern.test(value))` */
  predicate AnyPatternMatches(patterns: seq<Pattern>, value: string) {
    exists k :: 0 <= k < |patterns| && PatternTest(patterns[k], value)
  }

  /** Row `i` of the table is the first whose patterns match. */
  predicate FirstCategoryAt(table: seq<CategoryRule>, i: int, value: string) {
    0 <= i < |table|
    && AnyPatternMatches(table[i].patterns, value)
    && forall j :: 0 <= j < i ==> !AnyPatternMatches(table[j].patterns, value)
  }

  function FirstCategory(table: seq<CategoryRule>, value: string): (r: string)
    ensures (forall i :: 0 <= i < |table| ==> !AnyPatternMatches(table[i].patterns, value)) ==> r == Uncategorized
    ensures (exists i :: FirstCategoryAt(table, i, value))
            ==> exists i :: FirstCategoryAt(table, i, value) && r == table[i].category
  {
    if table == [] then Uncategorized
    else if AnyPatternMatches(table[0].patterns, value) then
      assert FirstCategoryAt(table, 0, value);
      table[0].category
    else
      var r := FirstCategory(table[1..], value);
      FirstCategoryShifts(table, r, value);
      r
  }

  lemma FirstCategoryShifts(table: seq<CategoryRule>, r: string, value: string)
    requires table != [] && !AnyPatternMatches(table[0].patterns, value)
    requires (exists i :: FirstCategoryAt(table[1..], i, value))
             ==> exists i :: FirstCategoryAt(table[1..], i, value) && r == table[1..][i].category
    ensures (exists i :: FirstCategoryAt(table, i, value))
            ==> exists i :: FirstCategoryAt(table, i, value) && r == table[i].category
  {
    if exists i :: FirstCategoryAt(table, i, value) {
      var i :| FirstCategoryAt(table, i, value);
      assert FirstCategoryAt(table[1..], i - 1, value);
      var k :| FirstCategoryAt(table[1..], k, value) && r == table[1..][k].category;
      assert FirstCategoryAt(table, k + 1, value);
    }
  }

  /** `categorizeMerchant`: the first table category with a pattern found in the lower-cased merchant. */
  function CategorizeMerchant(merchant: string): (r: string)
    ensures r in BuiltInCategories
    ensures (forall i :: 0 <= i < |CategoryTable| ==> !AnyPatternMatches(CategoryTable[i].patterns, ToLower(merchant)))
            <==> r == Uncategorized
    ensures r != Uncategorized ==>
            exists i :: FirstCategoryAt(CategoryTable, i, ToLower(merchant)) && r == CategoryTable[i].category
  {
    BuiltInTableAnswers(ToLower(merchant));
    FirstCategory(CategoryTable, ToLower(merchant))
  }

  lemma BuiltInTableAnswers(value: string)
    ensures FirstCategory(CategoryTable, value) in BuiltInCategories
    ensures (forall i :: 0 <= i < |CategoryTable| ==> !AnyPatternMatches(CategoryTable[i].patterns, value))
            <==> FirstCategory(CategoryTable, value) == Uncategorized
    ensures FirstCategory(CategoryTable, value) != Uncategorized ==>
            exists i :: FirstCategoryAt(CategoryTable, i, value) && FirstCategory(CategoryTable, value) == CategoryTable[i].category
  {
    TableCategories();
    if exists i :: FirstCategoryAt(CategoryTable, i, value) {
      var i :| FirstCategoryAt(CategoryTable, i, value);
      assert CategoryTable[i].category == BuiltInCategories[i];
    } else {
      forall i | 0 <= i < |CategoryTable| ensures !AnyPatternMatches(CategoryTable[i].patterns, value) {
        if AnyPatternMatches(CategoryTable[i].patterns, value) {
          FirstMatchExists(CategoryTable, i, value);
        }
      }
    }
  }

  /** Row `i` of the table names the `i`-th built-in category; "Uncategorized" is in no row. */
  lemma TableCategories()
    ensures |CategoryTable| == 7 && |BuiltInCategories| == 8
    ensures forall i :: 0 <= i < 7 ==> CategoryTable[i].category == BuiltInCategories[i] != Uncategorized
  {
    assert CategoryTable[0].category == BuiltInCategories[0];
    assert CategoryTable[1].category == BuiltInCategories[1];
    assert CategoryTable[2].category == BuiltInCategories[2];
    assert CategoryTable[3].category == BuiltInCategories[3];
    assert CategoryTable[4].category == BuiltInCategories[4];
    assert CategoryTable[5].category == BuiltInCategories[5];
    assert CategoryTable[6].category == BuiltInCategories[6];
  }

  /** If some row matches, some row is the first to match. */
  lemma {:induction false} FirstMatchExists(table: seq<CategoryRule>, i: int, value: string)
    requires 0 <= i < |table| && AnyPatternMatches(table[i].patterns, value)
    ensures exists k :: FirstCategoryAt(table, k, value)
    decreases i
  {
    if forall j :: 0 <= j < i ==> !AnyPatternMatches(table[j].patterns, value) {
      assert FirstCategoryAt(table, i, value);
    } else {
      var j :| 0 <= j < i && AnyPatternMatches(table[j].patterns, value);
      FirstMatchExists(table, j, value);
    }
  }

  /** A merchant whose text holds "walmart" (any case) is Groceries: that row comes first. */
  lemma WalmartIsGroceries(merchant: string)
    requires Contains(ToLower(merchant), "walmart")
    ensures CategorizeMerchant(merchant) == "Groceries"
  {
    var value := ToLower(merchant);
    LiteralTest("walmart", value);
    assert PatternTest(CategoryTable[0].patterns[0], value);
    assert AnyPatternMatches(CategoryTable[0].patterns, value);
    assert FirstCategoryAt(CategoryTable, 0, value);
  }

  /** "walmart.com", in any case, is categorised Groceries and never Shopping. */
  lemma WalmartComIsGroceries(merchant: string)
    requires Contains(ToLower(merchant), "walmart.com")
    ensures CategorizeMerchant(merchant) == "Groceries"
  {
    assert OccursAt("walmart.com", "walmart", 0);
    ContainsAt("walmart.com", "walmart", 0);
    ContainsTransitive(ToLower(merchant), "walmart.com", "walmart");
    WalmartIsGroceries(merchant);
  }

  /** The table with Shopping's `/walmart\.com/` pattern taken out. */
  function TableWithoutWalmartCom(): seq<CategoryRule> {
    CategoryTable[3 := CategoryRule("Shopping", [
      Lit("amazon"), Lit("amzn"), Lit("target"), Pattern(["best", "buy"]),
      Pattern(["dollar", "tree"]), Lit("shop")])]
  }

  /**
   * Shopping's `/walmart\.com/` pattern can never decide a result: removing it from the
   * table changes the category of no merchant, because Groceries' `/walmart/` is tried first.
   */
  lemma WalmartComPatternIsDead(value: string)
    ensures FirstCategory(TableWithoutWalmartCom(), value) == FirstCategory(CategoryTable, value)
  {
    var t := TableWithoutWalmartCom();
    assert t[0] == CategoryTable[0];
    if !AnyPatternMatches(CategoryTable[0].patterns, value) {
      assert CategoryTable[0].patterns[0] == Lit("walmart");
      assert !PatternTest(Lit("walmart"), value);
      LiteralTest("walmart", value);
      LiteralTest("walmart.com", value);
      if Contains(value, "walmart.com") {
        assert OccursAt("walmart.com", "walmart", 0);
        ContainsAt("walmart.com", "walmart", 0);
        ContainsTransitive(value, "walmart.com", "walmart");
      }
      var p, q := t[3].patterns, CategoryTable[3].patterns;
      assert q == p[..4] + [Lit("walmart.com")] + p[4..];
      NonMatchingPatternIsInert(p, 4, Lit("walmart.com"), value);
      forall i | 0 <= i < |t|
        ensures t[i].category == CategoryTable[i].category
        ensures AnyPatternMatches(t[i].patterns, value) == AnyPatternMatches(CategoryTable[i].patterns, value)
      {
        if i != 3 { assert t[i] == CategoryTable[i]; }
      }
      FirstCategoryAgree(t, CategoryTable, value);
    }
  }

  /** Inserting a pattern that does not match leaves `some` unchanged. */
  lemma NonMatchingPatternIsInert(p: seq<Pattern>, k: nat, x: Pattern, value: string)
    requires k <= |p| && !PatternTest(x, value)
    ensures AnyPatternMatches(p[..k] + [x] + p[k..], value) == AnyPatternMatches(p, value)
  {
    var q := p[..k] + [x] + p[k..];
    if AnyPatternMatches(q, value) {
      var j :| 0 <= j < |q| && PatternTest(q[j], value);
      if j < k { assert q[j] == p[j]; } else { assert j != k && q[j] == p[j - 1]; }
    }
    if AnyPatternMatches(p, value) {
      var j :| 0 <= j < |p| && PatternTest(p[j], value);
      if j < k { assert q[j] == p[j]; } else { assert q[j + 1] == p[j]; }
    }
  }

  /** Two tables whose rows agree on category and on whether they match give the same answer. */
  lemma {:induction false} FirstCategoryAgree(t1: seq<CategoryRule>, t2: seq<CategoryRule>, value: string)
    requires |t1| == |t2|
    requires forall i :: 0 <= i < |t1| ==> t1[i].category == t2[i].category
    requires forall i :: 0 <= i < |t1| ==>
               AnyPatternMatches(t1[i].patterns, value) == AnyPatternMatches(t2[i].patterns, value)
    ensures FirstCategory(t1, value) == FirstCategory(t2, value)
  {
    if t1 != [] {
      FirstCategoryAgree(t1[1..], t2[1..], value);
    }
  }
}
