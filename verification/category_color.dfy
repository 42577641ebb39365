/**
 * `getCategoryColor`: the badge classes for a news category, looked up
 * case-insensitively with the `general` classes as fallback.
 */
module CategoryColor {
  import opened Wrappers
  import opened JsString

  const Technology: string := "bg-blue-100 text-blue-700 dark:bg-blue-900/30 dark:text-blue-300"
  const Business: string := "bg-green-100 text-green-700 dark:bg-green-900/30 dark:text-green-300"
  const Science: string := "bg-purple-100 text-purple-700 dark:bg-purple-900/30 dark:text-purple-300"
  const Health: string := "bg-red-100 text-red-700 dark:bg-red-900/30 dark:text-red-300"
  const Entertainment: string := "bg-pink-100 text-pink-700 dark:bg-pink-900/30 dark:text-pink-300"
  const Sports: string := "bg-orange-100 text-orange-700 dark:bg-orange-900/30 dark:text-orange-300"
  const General: string := "bg-gray-100 text-gray-700 dark:bg-gray-900/30 dark:text-gray-300"

  /** The own properties of the `colors` object literal. */
  const Colors: map<string, string> := map[
    "technology" := Technology,
    "business" := Business,
    "science" := Science,
    "health" := Health,
    "entertainment" := Entertainment,
    "sports" := Sports,
    "general" := General
  ]

  /**
   * The members every plain object inherits from `Object.prototype` whose
   * names contain no upper-case letter, so a lower-cased key can reach
   * them; the other inherited names (`toString`, `valueOf`, ...) all do.
   */
  const InheritedLowerCaseNames: set<string> := {"constructor", "__proto__"}

  /** A value a property read may produce: a string, or an inherited non-string member. */
  datatype JsValue = Str(s: string) | InheritedMember(name: string)

  /** `category?.toLowerCase()`: absent stays absent. */
  function LookupKey(category: Option<string>): (r: Option<string>)
    ensures category.None? <==> r.None?
    ensures r.Some? ==> r.value == Lower(category.value)
  {
    match category
    case None => None
    case Some(c) => Some(Lower(c))
  }

  /**
   * The lookup as written: a property read on a plain object also finds
   * inherited members, and those are truthy, so `|| colors.general` does not
   * replace them. An absent key reads the property `"undefined"`, which the
   * table lacks.
   */
  function GetCategoryColorAsWritten(category: Option<string>): (r: JsValue)
    ensures r.InheritedMember? <==>
              category.Some? && Lower(category.value) in InheritedLowerCaseNames
    ensures r.Str? ==> r.s in Colors.Values
  {
    var key := LookupKey(category).GetOr("undefined");
    assert Colors["general"] == General;
    if key in Colors then Str(Colors[key])
    else if key in InheritedLowerCaseNames then InheritedMember(key)
    else Str(General)
  }

  /** The intended lookup: own properties of the table only. */
  function GetCategoryColor(category: Option<string>): (r: string)
    ensures r in Colors.Values
    ensures category.Some? && Lower(category.value) in Colors ==> r == Colors[Lower(category.value)]
  {
    assert Colors["general"] == General;
    match LookupKey(category)
    case Some(key) => if key in Colors then Colors[key] else General
    case None => General
  }

  /** The seven class strings are pairwise different. */
  lemma ColorsDistinct(k1: string, k2: string)
    requires k1 in Colors && k2 in Colors && k1 != k2
    ensures Colors[k1] != Colors[k2]
  {
  }

  /**
   * The result is the `general` classes exactly when the category is absent,
   * unknown to the table, or `general` in some spelling.
   */
  lemma GeneralExactlyWhenUnknown(category: Option<string>)
    ensures GetCategoryColor(category) == General <==>
              category.None? || Lower(category.value) !in Colors || Lower(category.value) == "general"
  {
    if category.Some? && Lower(category.value) in Colors && Lower(category.value) != "general" {
      ColorsDistinct(Lower(category.value), "general");
    }
  }

  /** Spellings that agree after lower-casing get the same classes. */
  lemma CaseInsensitive(c1: string, c2: string)
    requires Lower(c1) == Lower(c2)
    ensures GetCategoryColor(Some(c1)) == GetCategoryColor(Some(c2))
  {
  }

  /** In particular a category and its lower-case form agree. */
  lemma IgnoresCase(c: string)
    ensures GetCategoryColor(Some(c)) == GetCategoryColor(Some(Lower(c)))
  {
    LowerOfLower(Lower(c));
  }

  /** The as-written lookup agrees with the intended one outside the two inherited names. */
  lemma AsWrittenAgreesOffPrototype(category: Option<string>)
    requires category.None? || Lower(category.value) !in InheritedLowerCaseNames
    ensures GetCategoryColorAsWritten(category) == Str(GetCategoryColor(category))
  {
    if category.None? {
      assert "undefined" !in Colors;
    }
  }

  /** `getCategoryColor("Constructor")` yields the inherited `Object` constructor, not a class string. */
  lemma AsWrittenLeaksConstructor()
    ensures GetCategoryColorAsWritten(Some("Constructor")) == InheritedMember("constructor")
    ensures GetCategoryColor(Some("Constructor")) == General
  {
    assert Lower("Constructor") == "constructor";
  }
}
