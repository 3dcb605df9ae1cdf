/** The reference-data service of floreheal-backend-esma/server.js: finding a catalog plant
    by slug, resolving the treatment-catalog key of a plant by an ordered fallback, and the
    not-found decisions of the plant, care, issues and treatment-text lookups.
    The catalogs are parameters; both are read-only. */
module TreatmentResolver {

  import opened Wrappers
  import opened Strings

  /** One catalog of issue texts: issue key to treatment text, in `Object.keys` order. */
  type Issues = seq<(string, string)>

  /** The treatment catalog: treatment key to issues, in `Object.keys` order. */
  type Catalog = seq<(string, Issues)>

  /** The Turkish name field: a list of names, a single name, or absent. */
  datatype TrNames = TrList(names: seq<string>) | TrText(name: string) | TrMissing

  /** A reference plant. A missing `names.en` or `treatmentKey` is the empty string:
      the code only tests them for truthiness. */
  datatype RefPlant = RefPlant(slug: string, tr: TrNames, en: string, treatmentKey: string,
                               care: Option<map<string, string>>)

  function Keys<V>(entries: seq<(string, V)>): (ks: seq<string>)
    ensures |ks| == |entries|
    ensures forall i :: 0 <= i < |entries| ==> ks[i] == entries[i].0
  {
    if entries == [] then [] else [entries[0].0] + Keys(entries[1..])
  }

  predicate HasKey<V>(entries: seq<(string, V)>, k: string) {
    k in Keys(entries)
  }

  /** `Object.keys` never lists a key twice: an object parsed from JSON has distinct own keys. */
  predicate DistinctKeys<V>(entries: seq<(string, V)>) {
    forall i, j :: 0 <= i < j < |entries| ==> entries[i].0 != entries[j].0
  }

  /** A treatment catalog as loaded from JSON: distinct treatment keys, and distinct issue
      keys within each entry. */
  predicate WellFormedCatalog(catalog: Catalog) {
    DistinctKeys(catalog) && forall i :: 0 <= i < |catalog| ==> DistinctKeys(catalog[i].1)
  }

  /** `obj[k]` for an own key `k`. */
  function Lookup<V>(entries: seq<(string, V)>, k: string): (v: V)
    requires HasKey(entries, k)
    ensures (k, v) in entries
  {
    if entries[0].0 == k then entries[0].1 else Lookup(entries[1..], k)
  }

  /** `plants.find((p) => p.slug === slug)`: the first plant with that slug. */
  function FindPlantBySlug(plants: seq<RefPlant>, slug: string): (r: Option<RefPlant>)
    ensures r.Some? ==> r.value in plants && r.value.slug == slug
    ensures r.None? <==> forall p :: p in plants ==> p.slug != slug
    ensures r.Some? ==> forall i :: (0 <= i < |plants| && plants[i].slug == slug
                          && forall j :: 0 <= j < i ==> plants[j].slug != slug) ==> plants[i] == r.value
  {
    if plants == [] then None
    else if plants[0].slug == slug then Some(plants[0])
    else
      var r := FindPlantBySlug(plants[1..], slug);
      assert forall i :: 0 < i < |plants| ==> plants[i] == plants[1..][i - 1];
      r
  }

  /** `Array.isArray(names.tr) ? names.tr[0] : names.tr`, with undefined read as "". */
  function PrimaryTrName(tr: TrNames): string {
    match tr
    case TrList(ns) => if |ns| > 0 then ns[0] else ""
    case TrText(n) => n
    case TrMissing => ""
  }

  datatype MatchMode = Exact | Substring

  predicate Matches(mode: MatchMode, key: string, name: string) {
    match mode
    case Exact => key == name
    case Substring => Includes(key, name)
  }

  /** The index of the key `keys.find` returns: the first one that matches. */
  function FindIndex(keys: seq<string>, mode: MatchMode, name: string): (r: Option<nat>)
    ensures r.Some? ==> r.value < |keys| && Matches(mode, keys[r.value], name)
    ensures r.Some? ==> forall j :: 0 <= j < r.value ==> !Matches(mode, keys[j], name)
    ensures r.None? ==> forall j :: 0 <= j < |keys| ==> !Matches(mode, keys[j], name)
  {
    if keys == [] then None
    else if Matches(mode, keys[0], name) then Some(0)
    else
      match FindIndex(keys[1..], mode, name)
      case Some(i) => Some(i + 1)
      case None => None
  }

  /** Steps 2 to 4 of the fallback: exact Turkish name, a key containing the Turkish name,
      a key containing the English name. An empty name skips its steps. A key found by
      `find` is returned as is: it equals or contains a non-empty name, so it is non-empty
      and passes the truthiness test of the code. */
  function ResolveByName(keys: seq<string>, tr: string, en: string): (r: Option<string>)
    ensures r.Some? ==> r.value in keys
    ensures r.Some? ==> (tr != "" && Includes(r.value, tr)) || (en != "" && Includes(r.value, en))
  {
    assert IsPrefix(tr, tr);
    var exact := if tr != "" then FindIndex(keys, Exact, tr) else None;
    if exact.Some? then Some(keys[exact.value])
    else
      var containsTr := if tr != "" then FindIndex(keys, Substring, tr) else None;
      if containsTr.Some? then Some(keys[containsTr.value])
      else
        var containsEn := if en != "" then FindIndex(keys, Substring, en) else None;
        if containsEn.Some? then Some(keys[containsEn.value])
        else None
  }

  /** `findTreatmentKeyForPlant`: the plant's own `treatmentKey` when the catalog has it,
      otherwise the name fallback; a null plant resolves to null. */
  function ResolveTreatmentKey(catalog: Catalog, plant: Option<RefPlant>): (r: Option<string>)
    ensures plant.None? ==> r.None?
    ensures r.Some? ==> HasKey(catalog, r.value)
  {
    if plant.None? then None
    else
      var p := plant.value;
      if p.treatmentKey != "" && HasKey(catalog, p.treatmentKey) then Some(p.treatmentKey)
      else ResolveByName(Keys(catalog), PrimaryTrName(p.tr), p.en)
  }

  /** Step 1 dominates: a treatment key the catalog has is returned whatever the names are. */
  lemma DirectKeyWins(catalog: Catalog, p: RefPlant)
    requires p.treatmentKey != "" && HasKey(catalog, p.treatmentKey)
    ensures ResolveTreatmentKey(catalog, Some(p)) == Some(p.treatmentKey)
  {
  }

  /** A treatment key that is absent or not in the catalog falls through to the names. */
  lemma UnknownKeyFallsThrough(catalog: Catalog, p: RefPlant)
    requires p.treatmentKey == "" || !HasKey(catalog, p.treatmentKey)
    ensures ResolveTreatmentKey(catalog, Some(p)) == ResolveByName(Keys(catalog), PrimaryTrName(p.tr), p.en)
  {
  }

  /** An exact Turkish match beats every substring match and returns the name itself. */
  lemma ExactTurkishWins(keys: seq<string>, tr: string, en: string)
    requires tr != "" && tr in keys
    ensures ResolveByName(keys, tr, en) == Some(tr)
  {
    var i :| 0 <= i < |keys| && keys[i] == tr;
  }

  /** Without an exact match, the first key (in key order) containing the Turkish name wins. */
  lemma FirstTurkishSubstringWins(keys: seq<string>, tr: string, en: string, i: nat)
    requires tr != "" && tr !in keys
    requires i < |keys| && Includes(keys[i], tr)
    requires forall j :: 0 <= j < i ==> !Includes(keys[j], tr)
    ensures ResolveByName(keys, tr, en) == Some(keys[i])
  {
    assert FindIndex(keys, Exact, tr).None?;
    assert FindIndex(keys, Substring, tr).Some?;
  }

  /** The English step is reached only when no key equals or contains the Turkish name. */
  lemma EnglishOnlyAfterTurkish(keys: seq<string>, tr: string, en: string)
    requires ResolveByName(keys, tr, en).Some?
    requires var k := ResolveByName(keys, tr, en).value; tr == "" || !Includes(k, tr)
    ensures tr != "" ==> forall k :: k in keys ==> !Includes(k, tr) && k != tr
    ensures en != "" && Includes(ResolveByName(keys, tr, en).value, en)
  {
    if tr != "" {
      var containsTr := FindIndex(keys, Substring, tr);
      if containsTr.Some? {
        assert false;
      }
      assert IsPrefix(tr, tr);
      forall k | k in keys
        ensures !Includes(k, tr) && k != tr
      {
        var j :| 0 <= j < |keys| && keys[j] == k;
        assert !Includes(keys[j], tr);
      }
    }
  }

  /** With no key equal to or containing the Turkish name, the first key (in key order)
      containing the English name wins. */
  lemma FirstEnglishSubstringWins(keys: seq<string>, tr: string, en: string, i: nat)
    requires tr == "" || forall k :: k in keys ==> !Includes(k, tr)
    requires en != "" && i < |keys| && Includes(keys[i], en)
    requires forall j :: 0 <= j < i ==> !Includes(keys[j], en)
    ensures ResolveByName(keys, tr, en) == Some(keys[i])
  {
    if tr != "" {
      assert Includes(tr, tr) by { assert IsPrefix(tr, tr); }
      forall j | 0 <= j < |keys| ensures !Includes(keys[j], tr) && keys[j] != tr {
        assert keys[j] in keys;
      }
      assert FindIndex(keys, Exact, tr).None?;
      assert FindIndex(keys, Substring, tr).None?;
    }
    assert FindIndex(keys, Substring, en) == Some(i);
  }

  /** The fallback finds nothing exactly when no key contains a non-empty name. A key equal
      to the Turkish name contains it, so the exact step adds no further case. */
  lemma NoneIffNoMatch(keys: seq<string>, tr: string, en: string)
    ensures ResolveByName(keys, tr, en).None? <==>
      (tr == "" || forall k :: k in keys ==> !Includes(k, tr))
      && (en == "" || forall k :: k in keys ==> !Includes(k, en))
  {
    if ResolveByName(keys, tr, en).None? {
      if tr != "" {
        assert FindIndex(keys, Substring, tr).None?;
        forall k | k in keys ensures !Includes(k, tr) {
          var j :| 0 <= j < |keys| && keys[j] == k;
        }
      }
      if en != "" {
        assert FindIndex(keys, Substring, en).None?;
        forall k | k in keys ensures !Includes(k, en) {
          var j :| 0 <= j < |keys| && keys[j] == k;
        }
      }
    }
  }

  /** Empty names never match, although the empty string is contained in every key. */
  lemma EmptyNamesResolveToNothing(keys: seq<string>)
    ensures ResolveByName(keys, "", "") == None
  {
  }

  /** A key that equals or contains a non-empty name is non-empty. */
  lemma MatchImpliesNonEmpty(mode: MatchMode, key: string, name: string)
    requires name != "" && Matches(mode, key, name)
    ensures key != ""
  {
  }

  /** Whatever the catalog, a resolved key is never empty. */
  lemma ResolvedKeyNonEmpty(catalog: Catalog, plant: Option<RefPlant>)
    requires ResolveTreatmentKey(catalog, plant).Some?
    ensures ResolveTreatmentKey(catalog, plant).value != ""
  {
    var p := plant.value;
    var keys, tr, en := Keys(catalog), PrimaryTrName(p.tr), p.en;
    var exact := if tr != "" then FindIndex(keys, Exact, tr) else None;
    var containsTr := if tr != "" then FindIndex(keys, Substring, tr) else None;
    var containsEn := if en != "" then FindIndex(keys, Substring, en) else None;
    if exact.Some? {
      MatchImpliesNonEmpty(Exact, keys[exact.value], tr);
    } else if containsTr.Some? {
      MatchImpliesNonEmpty(Substring, keys[containsTr.value], tr);
    } else if containsEn.Some? {
      MatchImpliesNonEmpty(Substring, keys[containsEn.value], en);
    }
  }

  // The handlers.

  datatype NotFound = PlantNotFound | TreatmentNotFound | TreatmentTextNotFound

  datatype IssueList = IssueList(treatmentKey: string, issues: seq<string>)

  datatype TreatmentText = TreatmentText(plantSlug: string, treatmentKey: string,
                                         issueKey: string, treatment: string)

  /** `GET /api/plants/:slug`. */
  function PlantDetail(plants: seq<RefPlant>, slug: string): (r: Result<RefPlant, NotFound>)
    ensures r.Success? ==> r.value in plants && r.value.slug == slug
    ensures r.Failure? <==> forall p :: p in plants ==> p.slug != slug
    ensures r.Failure? ==> r.error == PlantNotFound
  {
    match FindPlantBySlug(plants, slug)
    case None => Failure(PlantNotFound)
    case Some(p) => Success(p)
  }

  /** `GET /api/plants/:slug/care`: the care fields, or `{}` when the plant has none. */
  function PlantCare(plants: seq<RefPlant>, slug: string): (r: Result<map<string, string>, NotFound>)
    ensures r.Failure? <==> forall p :: p in plants ==> p.slug != slug
    ensures r.Failure? ==> r.error == PlantNotFound
    ensures var found := FindPlantBySlug(plants, slug);
      found.Some? ==> r == Success(if found.value.care.Some? then found.value.care.value else map[])
  {
    match FindPlantBySlug(plants, slug)
    case None => Failure(PlantNotFound)
    case Some(p) => Success(if p.care.Some? then p.care.value else map[])
  }

  /** `GET /api/plants/:slug/issues`. */
  function PlantIssues(plants: seq<RefPlant>, catalog: Catalog, slug: string): (r: Result<IssueList, NotFound>)
    requires WellFormedCatalog(catalog)
    ensures r.Success? ==> HasKey(catalog, r.value.treatmentKey)
                           && r.value.issues == Keys(Lookup(catalog, r.value.treatmentKey))
    ensures r.Success? ==> forall i, j :: 0 <= i < j < |r.value.issues| ==> r.value.issues[i] != r.value.issues[j]
  {
    match FindPlantBySlug(plants, slug)
    case None => Failure(PlantNotFound)
    case Some(p) =>
      var tk := ResolveTreatmentKey(catalog, Some(p));
      if tk.None? || tk.value == "" || !HasKey(catalog, tk.value) then Failure(TreatmentNotFound)
      else
        var issues := Lookup(catalog, tk.value);
        assert DistinctKeys(issues) by {
          var i :| 0 <= i < |catalog| && catalog[i] == (tk.value, issues);
        }
        Success(IssueList(tk.value, Keys(issues)))
  }

  /** `GET /api/plants/:slug/treatments/:issueKey`: a missing or empty text is not found too. */
  function PlantTreatment(plants: seq<RefPlant>, catalog: Catalog, slug: string, issueKey: string)
    : (r: Result<TreatmentText, NotFound>)
    requires WellFormedCatalog(catalog)
    ensures r.Success? ==> HasKey(catalog, r.value.treatmentKey)
                           && HasKey(Lookup(catalog, r.value.treatmentKey), issueKey)
                           && r.value.treatment == Lookup(Lookup(catalog, r.value.treatmentKey), issueKey)
                           && r.value.treatment != ""
  {
    match FindPlantBySlug(plants, slug)
    case None => Failure(PlantNotFound)
    case Some(p) =>
      var tk := ResolveTreatmentKey(catalog, Some(p));
      if tk.None? || tk.value == "" || !HasKey(catalog, tk.value) then Failure(TreatmentNotFound)
      else
        var issues := Lookup(catalog, tk.value);
        if !HasKey(issues, issueKey) || Lookup(issues, issueKey) == "" then Failure(TreatmentTextNotFound)
        else Success(TreatmentText(slug, tk.value, issueKey, Lookup(issues, issueKey)))
  }

  /** An unknown slug is not found by every lookup, with no partial data. */
  lemma UnknownSlugNotFound(plants: seq<RefPlant>, catalog: Catalog, slug: string, issueKey: string)
    requires WellFormedCatalog(catalog)
    requires forall p :: p in plants ==> p.slug != slug
    ensures PlantDetail(plants, slug) == Failure(PlantNotFound)
    ensures PlantCare(plants, slug) == Failure(PlantNotFound)
    ensures PlantIssues(plants, catalog, slug) == Failure(PlantNotFound)
    ensures PlantTreatment(plants, catalog, slug, issueKey) == Failure(PlantNotFound)
  {
  }

  /** The issues reply succeeds exactly when the plant exists and its key resolves, and then
      lists exactly the issue keys of the resolved catalog entry. */
  lemma IssuesAreCatalogIssueKeys(plants: seq<RefPlant>, catalog: Catalog, slug: string)
    requires WellFormedCatalog(catalog)
    ensures var found := FindPlantBySlug(plants, slug);
      var tk := ResolveTreatmentKey(catalog, found);
      var r := PlantIssues(plants, catalog, slug);
      && (r.Success? <==> tk.Some?)
      && (r.Success? ==> tk == Some(r.value.treatmentKey) && HasKey(catalog, r.value.treatmentKey)
                         && r.value.issues == Keys(Lookup(catalog, r.value.treatmentKey)))
      && (r.Failure? ==> (r.error == PlantNotFound && found.None?)
                         || (r.error == TreatmentNotFound && found.Some? && tk.None?))
  {
    var found := FindPlantBySlug(plants, slug);
    if found.Some? && ResolveTreatmentKey(catalog, found).Some? {
      ResolvedKeyNonEmpty(catalog, found);
    }
  }

  /** The treatment reply returns the non-empty text stored under the issue key of the
      resolved entry; a missing or empty text is reported as not found. */
  lemma TreatmentTextIsCatalogText(plants: seq<RefPlant>, catalog: Catalog, slug: string, issueKey: string)
    requires WellFormedCatalog(catalog)
    ensures var found := FindPlantBySlug(plants, slug);
      var tk := ResolveTreatmentKey(catalog, found);
      var r := PlantTreatment(plants, catalog, slug, issueKey);
      && (r.Success? ==>
            tk == Some(r.value.treatmentKey) && r.value.plantSlug == slug && r.value.issueKey == issueKey
            && HasKey(catalog, r.value.treatmentKey)
            && r.value.treatment == Lookup(Lookup(catalog, r.value.treatmentKey), issueKey)
            && r.value.treatment != "")
      && (r.Failure? ==>
            (r.error == PlantNotFound && found.None?)
            || (r.error == TreatmentNotFound && found.Some? && tk.None?)
            || (r.error == TreatmentTextNotFound && tk.Some?
                && var issues := Lookup(catalog, tk.value);
                   !HasKey(issues, issueKey) || Lookup(issues, issueKey) == ""))
  {
    var found := FindPlantBySlug(plants, slug);
    if found.Some? && ResolveTreatmentKey(catalog, found).Some? {
      ResolvedKeyNonEmpty(catalog, found);
    }
  }

  // As written, `treatments[plant.treatmentKey]` is a JavaScript property read, which also
  // finds the properties every object inherits from `Object.prototype`.

  /** Names every plain object inherits; reading any of them gives a truthy value. */
  const InheritedNames: set<string> := {
    "constructor", "__proto__", "hasOwnProperty", "isPrototypeOf", "propertyIsEnumerable",
    "toString", "toLocaleString", "valueOf", "__defineGetter__", "__defineSetter__",
    "__lookupGetter__", "__lookupSetter__"
  }

  /** `if (treatments[k])` as the code evaluates it: an own key (its value is an object)
      or an inherited name. */
  predicate PropertyTruthy(catalog: Catalog, k: string) {
    HasKey(catalog, k) || k in InheritedNames
  }

  /** `findTreatmentKeyForPlant` exactly as written, step 1 using the property read. */
  function ResolveTreatmentKeyAsWritten(catalog: Catalog, plant: Option<RefPlant>): (r: Option<string>)
    ensures r.Some? ==> HasKey(catalog, r.value) || r.value in InheritedNames
  {
    if plant.None? then None
    else
      var p := plant.value;
      if p.treatmentKey != "" && PropertyTruthy(catalog, p.treatmentKey) then Some(p.treatmentKey)
      else ResolveByName(Keys(catalog), PrimaryTrName(p.tr), p.en)
  }

  /** A plant whose `treatmentKey` is "constructor" resolves, as written, to a key that is not
      in the catalog, because the property read also sees names every object inherits. */
  lemma AsWrittenResolvesInheritedName(catalog: Catalog, p: RefPlant)
    requires !HasKey(catalog, "constructor") && p.treatmentKey == "constructor"
    ensures ResolveTreatmentKeyAsWritten(catalog, Some(p)) == Some("constructor")
    ensures !HasKey(catalog, ResolveTreatmentKeyAsWritten(catalog, Some(p)).value)
  {
  }

  /** The two resolvers differ only on inherited names: on any other treatment key they agree. */
  lemma AsWrittenAgreesOffInheritedNames(catalog: Catalog, plant: Option<RefPlant>)
    requires plant.Some? ==> plant.value.treatmentKey !in InheritedNames
                             || HasKey(catalog, plant.value.treatmentKey)
    ensures ResolveTreatmentKeyAsWritten(catalog, plant) == ResolveTreatmentKey(catalog, plant)
  {
  }

  // As written, `plantTreatments[issueKey]` (:149) is a property read too, and the issue key
  // comes straight from the request path. The member below keeps the corrected resolver so
  // that it differs from PlantTreatment in this read only.

  /** What `plantTreatments[issueKey]` gives: an own text, a member inherited from
      `Object.prototype` (a function, or the prototype itself for `__proto__`), or `undefined`. */
  datatype PropertyValue = OwnText(text: string) | InheritedMember | Undefined

  function ReadIssue(issues: Issues, issueKey: string): (v: PropertyValue)
    ensures v.OwnText? <==> HasKey(issues, issueKey)
    ensures v.InheritedMember? <==> !HasKey(issues, issueKey) && issueKey in InheritedNames
  {
    if HasKey(issues, issueKey) then OwnText(Lookup(issues, issueKey))
    else if issueKey in InheritedNames then InheritedMember
    else Undefined
  }

  /** `if (!treatmentText)` negated: a non-empty text or any inherited member. */
  predicate TruthyValue(v: PropertyValue) {
    match v
    case OwnText(t) => t != ""
    case InheritedMember => true
    case Undefined => false
  }

  /** The treatment reply as serialised. JSON drops a function-valued `treatment` and writes
      the prototype as `{}`; either way the reply carries no text, which is `None` here. */
  datatype TreatmentReply = TreatmentReply(plantSlug: string, treatmentKey: string,
                                           issueKey: string, treatment: Option<string>)

  /** `GET /api/plants/:slug/treatments/:issueKey` with the issue text read as a property. */
  function PlantTreatmentAsWritten(plants: seq<RefPlant>, catalog: Catalog, slug: string, issueKey: string)
    : (r: Result<TreatmentReply, NotFound>)
    requires WellFormedCatalog(catalog)
    ensures r.Success? && r.value.treatment.None? ==> issueKey in InheritedNames
  {
    match FindPlantBySlug(plants, slug)
    case None => Failure(PlantNotFound)
    case Some(p) =>
      var tk := ResolveTreatmentKey(catalog, Some(p));
      if tk.None? || tk.value == "" || !HasKey(catalog, tk.value) then Failure(TreatmentNotFound)
      else
        var v := ReadIssue(Lookup(catalog, tk.value), issueKey);
        if !TruthyValue(v) then Failure(TreatmentTextNotFound)
        else Success(TreatmentReply(slug, tk.value, issueKey, if v.OwnText? then Some(v.text) else None))
  }

  /** As written, the issue key "toString" answers 200 for every plant whose treatment key
      resolves, even though its entry holds no such issue; the corrected handler answers
      that the text is not found. */
  lemma AsWrittenAnswersInheritedIssue(plants: seq<RefPlant>, catalog: Catalog, slug: string)
    requires WellFormedCatalog(catalog)
    requires FindPlantBySlug(plants, slug).Some?
    requires ResolveTreatmentKey(catalog, FindPlantBySlug(plants, slug)).Some?
    requires var tk := ResolveTreatmentKey(catalog, FindPlantBySlug(plants, slug)).value;
      !HasKey(Lookup(catalog, tk), "toString")
    ensures var tk := ResolveTreatmentKey(catalog, FindPlantBySlug(plants, slug)).value;
      PlantTreatmentAsWritten(plants, catalog, slug, "toString")
        == Success(TreatmentReply(slug, tk, "toString", None))
    ensures PlantTreatment(plants, catalog, slug, "toString") == Failure(TreatmentTextNotFound)
  {
    ResolvedKeyNonEmpty(catalog, FindPlantBySlug(plants, slug));
  }

  /** Off the inherited names, the handler as written and the corrected one give the same reply. */
  lemma TreatmentAsWrittenAgreesOffInheritedNames(plants: seq<RefPlant>, catalog: Catalog,
                                                  slug: string, issueKey: string)
    requires WellFormedCatalog(catalog) && issueKey !in InheritedNames
    ensures var w := PlantTreatmentAsWritten(plants, catalog, slug, issueKey);
      var c := PlantTreatment(plants, catalog, slug, issueKey);
      && (w.Failure? <==> c.Failure?)
      && (w.Failure? ==> w.error == c.error)
      && (w.Success? ==> w.value == TreatmentReply(c.value.plantSlug, c.value.treatmentKey,
                                                   c.value.issueKey, Some(c.value.treatment)))
  {
  }
}
