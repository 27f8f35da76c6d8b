/**
 * What the getters compute, as functions of the mirror: the locale-aware
 * threat types and the threats joined with their type and asset names.
 */
module Views {
  import opened Wrappers
  import opened Records
  import Rows

  /** The entry of the name map a locale reads: `es` for "es", `en` for every other locale. */
  function LocaleEntry(locale: string): (entry: string)
    ensures entry == "es" <==> locale == "es"
    ensures entry != "es" ==> entry == "en"
  {
    if locale == "es" then "es" else "en"
  }

  /** `JSON.parse(name)[entry]`, undefined when the map has no such entry. */
  function Translation(name: map<string, string>, locale: string): (r: Option<string>)
    ensures r.Some? <==> LocaleEntry(locale) in name
    ensures r.Some? ==> r.value == name[LocaleEntry(locale)] && r.value in name.Values
  {
    var entry := LocaleEntry(locale);
    if entry in name then Some(name[entry]) else None
  }

  /** One row after the getter has written its `name_translation`. */
  function Localize(t: ThreatType, locale: string): (r: ThreatType)
    ensures r.ThreatType? == t.ThreatType?
    ensures t.ThreatType? ==> r.id == t.id && r.name == t.name && r.nameTranslation == Translation(t.name, locale)
    ensures t.EmptyTypeReply? ==> r == t
  {
    if t.ThreatType? then t.(nameTranslation := Translation(t.name, locale)) else t
  }

  /** The rows after the getter's loop has written a translation into every record. */
  function Localized(rows: seq<ThreatType>, locale: string): (r: seq<ThreatType>)
    ensures |r| == |rows|
  {
    if rows == [] then [] else [Localize(rows[0], locale)] + Localized(rows[1..], locale)
  }

  /**
   * Each row of the view: a record keeps its id and name and carries the `es`
   * entry of its name for the locale "es" and the `en` entry for any other
   * locale; an empty reply is left as it is.
   */
  lemma {:induction false} LocalizedAt(rows: seq<ThreatType>, locale: string, i: int)
    requires 0 <= i < |rows|
    ensures Localized(rows, locale)[i].ThreatType? == rows[i].ThreatType?
    ensures rows[i].ThreatType? ==>
              && Localized(rows, locale)[i].id == rows[i].id
              && Localized(rows, locale)[i].name == rows[i].name
              && Localized(rows, locale)[i].nameTranslation
                 == (if locale == "es" then Translation(rows[i].name, "es") else Translation(rows[i].name, "en"))
    ensures rows[i].EmptyTypeReply? ==> Localized(rows, locale)[i] == rows[i]
  {
    if i > 0 {
      LocalizedAt(rows[1..], locale, i - 1);
    }
  }

  /** The view of a longer list extends the view of its prefix by the localized last row. */
  lemma {:induction false} LocalizedAppend(rows: seq<ThreatType>, t: ThreatType, locale: string)
    ensures Localized(rows + [t], locale) == Localized(rows, locale) + [Localize(t, locale)]
  {
    if rows != [] {
      LocalizedAppend(rows[1..], t, locale);
      assert (rows + [t])[1..] == rows[1..] + [t];
    }
  }

  /** The index at which the getter's loop stops: the first row whose name cannot be parsed, or the length. */
  function FirstUnparsable(rows: seq<ThreatType>): (stop: nat)
    ensures stop <= |rows|
    ensures forall i :: 0 <= i < stop ==> rows[i].ThreatType?
    ensures stop < |rows| ==> rows[stop].EmptyTypeReply?
  {
    if rows == [] || rows[0].EmptyTypeReply? then 0 else 1 + FirstUnparsable(rows[1..])
  }

  /** Reading the locale-aware view twice under one locale gives what reading it once gives. */
  lemma {:induction false} LocalizedIdempotent(rows: seq<ThreatType>, locale: string)
    ensures Localized(Localized(rows, locale), locale) == Localized(rows, locale)
  {
    if rows != [] {
      LocalizedIdempotent(rows[1..], locale);
      assert Localized(rows, locale)[1..] == Localized(rows[1..], locale);
    }
  }

  /**
   * The translations depend only on the ids, the name maps and the locale: two lists
   * that differ only in previously derived translations give the same view.
   */
  lemma {:induction false} LocalizedIgnoresStaleTranslations(a: seq<ThreatType>, b: seq<ThreatType>, locale: string)
    requires |a| == |b|
    requires forall i :: 0 <= i < |a| ==> a[i].ThreatType? == b[i].ThreatType?
    requires forall i :: 0 <= i < |a| && a[i].ThreatType? ==> a[i].id == b[i].id && a[i].name == b[i].name
    ensures Localized(a, locale) == Localized(b, locale)
  {
    if a != [] {
      LocalizedIgnoresStaleTranslations(a[1..], b[1..], locale);
    }
  }

  /** Localizing keeps the rows that can be parsed parsable, so the getter stops at the same place. */
  lemma {:induction false} FirstUnparsableLocalized(rows: seq<ThreatType>, locale: string)
    ensures FirstUnparsable(Localized(rows, locale)) == FirstUnparsable(rows)
  {
    if rows != [] {
      FirstUnparsableLocalized(rows[1..], locale);
      assert Localized(rows, locale)[1..] == Localized(rows[1..], locale);
    }
  }

  /**
   * The stored types after one read of the locale-aware view: translated up to the
   * first row whose name cannot be parsed, where the read throws, and untouched from there.
   */
  function AfterTypesRead(rows: seq<ThreatType>, locale: string): (r: seq<ThreatType>)
    ensures |r| == |rows|
  {
    var stop := FirstUnparsable(rows);
    Localized(rows[..stop], locale) + rows[stop..]
  }

  /**
   * Reading the view a second time under the same locale stops at the same row
   * and leaves the stored types as the first read left them.
   */
  lemma TypesReadIdempotent(rows: seq<ThreatType>, locale: string)
    ensures FirstUnparsable(AfterTypesRead(rows, locale)) == FirstUnparsable(rows)
    ensures AfterTypesRead(AfterTypesRead(rows, locale), locale) == AfterTypesRead(rows, locale)
  {
    var stop := FirstUnparsable(rows);
    var once := AfterTypesRead(rows, locale);
    FirstUnparsableLocalized(rows[..stop], locale);
    assert once[..stop] == Localized(rows[..stop], locale);
    assert once[stop..] == rows[stop..];
    FirstUnparsableAppend(once[..stop], once[stop..]);
    assert once[..stop] + once[stop..] == once;
    LocalizedIdempotent(rows[..stop], locale);
  }

  /** When a prefix parses throughout, the stop of the whole list is found after that prefix. */
  lemma {:induction false} FirstUnparsableAppend(a: seq<ThreatType>, b: seq<ThreatType>)
    requires FirstUnparsable(a) == |a|
    ensures FirstUnparsable(a + b) == |a| + FirstUnparsable(b)
  {
    if a != [] {
      assert (a + b)[1..] == a[1..] + b;
      FirstUnparsableAppend(a[1..], b);
    } else {
      assert a + b == b;
    }
  }

  /** A threat with its derived names overwritten. */
  function Annotate(t: Threat, typeName: Option<string>, assetName: Option<string>): Threat
  {
    t.(threatTypeName := typeName, assetName := assetName)
  }

  /** The name the join gives a threat type id: the translation of the last type with that id. */
  function TypeNameFor(types: seq<ThreatType>, k: Key): Option<string>
  {
    Rows.LastValue(types, TypeKey, TranslationOf, k)
  }

  /** The name the join gives an asset id: the name of the last asset with that id. */
  function AssetNameFor(assets: seq<Asset>, k: Key): Option<string>
  {
    Rows.LastValue(assets, AssetKey, AssetNameOf, k)
  }

  /** The threats after the join has written the two derived names into every one of them. */
  function Joined(threats: seq<Threat>, types: seq<ThreatType>, assets: seq<Asset>): (r: seq<Threat>)
    ensures |r| == |threats|
  {
    if threats == [] then []
    else
      var t := threats[0];
      [Annotate(t, TypeNameFor(types, TypeRef(t)), AssetNameFor(assets, AssetRef(t)))]
        + Joined(threats[1..], types, assets)
  }

  /**
   * Each threat of the join stays at its position with every other field as it was;
   * its type name is what the type table holds for its type id and its asset name
   * what the asset table holds for its asset id.
   */
  lemma {:induction false} JoinedAt(threats: seq<Threat>, types: seq<ThreatType>, assets: seq<Asset>, i: int)
    requires 0 <= i < |threats|
    ensures Annotate(Joined(threats, types, assets)[i], None, None) == Annotate(threats[i], None, None)
    ensures Joined(threats, types, assets)[i].threatTypeName == TypeNameFor(types, TypeRef(threats[i]))
    ensures Joined(threats, types, assets)[i].assetName == AssetNameFor(assets, AssetRef(threats[i]))
  {
    if i > 0 {
      JoinedAt(threats[1..], types, assets, i - 1);
    }
  }

  /** The join of a longer list extends the join of its prefix by the annotated last threat. */
  lemma {:induction false} JoinedAppend(threats: seq<Threat>, t: Threat, types: seq<ThreatType>, assets: seq<Asset>)
    ensures Joined(threats + [t], types, assets)
            == Joined(threats, types, assets) + [Annotate(t, TypeNameFor(types, TypeRef(t)), AssetNameFor(assets, AssetRef(t)))]
  {
    if threats != [] {
      JoinedAppend(threats[1..], t, types, assets);
      assert (threats + [t])[1..] == threats[1..] + [t];
    }
  }

  /**
   * A threat whose type id is carried by some type gets the translation of the last
   * such type; a threat whose type id no type carries gets no type name, and is kept.
   */
  lemma JoinedTypeName(threats: seq<Threat>, types: seq<ThreatType>, assets: seq<Asset>, i: int, j: int)
    requires 0 <= i < |threats| && 0 <= j < |types|
    requires TypeKey(types[j]) == TypeRef(threats[i])
    requires forall l :: j < l < |types| ==> TypeKey(types[l]) != TypeKey(types[j])
    ensures Joined(threats, types, assets)[i].threatTypeName == TranslationOf(types[j])
  {
    JoinedAt(threats, types, assets, i);
  }

  /** An unresolved type id or asset id leaves the derived name absent instead of dropping the threat. */
  lemma JoinedUnresolved(threats: seq<Threat>, types: seq<ThreatType>, assets: seq<Asset>, i: int)
    requires 0 <= i < |threats|
    ensures (forall j :: 0 <= j < |types| ==> TypeKey(types[j]) != TypeRef(threats[i]))
            ==> Joined(threats, types, assets)[i].threatTypeName == None
    ensures (forall j :: 0 <= j < |assets| ==> AssetKey(assets[j]) != AssetRef(threats[i]))
            ==> Joined(threats, types, assets)[i].assetName == None
  {
    JoinedAt(threats, types, assets, i);
  }

  /** Joining an already joined list against the same collections changes nothing. */
  lemma {:induction false} JoinedIdempotent(threats: seq<Threat>, types: seq<ThreatType>, assets: seq<Asset>)
    ensures Joined(Joined(threats, types, assets), types, assets) == Joined(threats, types, assets)
  {
    if threats != [] {
      JoinedIdempotent(threats[1..], types, assets);
      assert Joined(threats, types, assets)[1..] == Joined(threats[1..], types, assets);
    }
  }

  /** Reading the Spanish view of a type whose name map has a Spanish entry yields that entry. */
  lemma SpanishExample()
    ensures Localized([ThreatType(1, map["en" := "Spoofing", "es" := "Suplantación"], None)], "es")
            == [ThreatType(1, map["en" := "Spoofing", "es" := "Suplantación"], Some("Suplantación"))]
  {
  }

  /** The join fills both names of a threat whose type id and asset id resolve. */
  lemma JoinExample()
    ensures Joined([Threat(5, 1, 9, map[], None, None)],
                   [ThreatType(1, map["en" := "Spoofing"], Some("Spoofing"))],
                   [Asset(9, "Server A")])
            == [Threat(5, 1, 9, map[], Some("Spoofing"), Some("Server A"))]
  {
  }
}
