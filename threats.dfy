/**
 * The threats store: a mirror of the `threat_types` and `threats` tables,
 * the `backup` flag raised when the database must be recreated, and the
 * log of notifications the actions send. Mutations assign the fields,
 * actions interpret a backend reply and commit mutations, and the two
 * getters that derive names write them into the stored rows.
 */
module Threats {
  import opened Wrappers
  import opened Records
  import opened Views
  import Rows

  /** The parse failure `getAllThreatTypes` raises at the first row whose name is not JSON text. */
  datatype GetterError = NameNotParsable(index: nat)

  /** One step of the translation loop: the row at `i` is replaced by its localized form. */
  lemma StepLocalized(start: seq<ThreatType>, before: seq<ThreatType>, after: seq<ThreatType>, i: nat, locale: string)
    requires i < |start| && start[i].ThreatType?
    requires before == Localized(start[..i], locale) + start[i..]
    requires after == before[i := Localize(start[i], locale)]
    ensures after == Localized(start[..i + 1], locale) + start[i + 1..]
  {
    assert start[..i + 1] == start[..i] + [start[i]];
    LocalizedAppend(start[..i], start[i], locale);
  }

  /** One step of the join loop: the threat at `i` is replaced by its annotated form. */
  lemma StepJoined(start: seq<Threat>, before: seq<Threat>, after: seq<Threat>,
                   types: seq<ThreatType>, assets: seq<Asset>, i: nat)
    requires i < |start|
    requires before == Joined(start[..i], types, assets) + start[i..]
    requires after == before[i := Annotate(start[i], TypeNameFor(types, TypeRef(start[i])), AssetNameFor(assets, AssetRef(start[i])))]
    ensures after == Joined(start[..i + 1], types, assets) + start[i + 1..]
  {
    assert start[..i + 1] == start[..i] + [start[i]];
    JoinedAppend(start[..i], start[i], types, assets);
  }

  class Store {
    var threatTypes: seq<ThreatType>
    var threats: seq<Threat>
    var backup: bool
    var notifications: seq<Note>

    /** The mirror starts empty, with the flag down and no notification sent. */
    constructor ()
      ensures threatTypes == [] && threats == [] && !backup && notifications == []
    {
      threatTypes := [];
      threats := [];
      backup := false;
      notifications := [];
    }

    // ---- mutations ----

    /** `setThreatTypes`: the collection becomes exactly the given rows. */
    method SetThreatTypes(rows: seq<ThreatType>)
      modifies this
      ensures threatTypes == rows
      ensures threats == old(threats) && backup == old(backup) && notifications == old(notifications)
    {
      threatTypes := rows;
    }

    /** `newThreatType`: one row appended, every earlier row kept in place. */
    method NewThreatType(row: ThreatType)
      modifies this
      ensures |threatTypes| == |old(threatTypes)| + 1
      ensures threatTypes[..|old(threatTypes)|] == old(threatTypes)
      ensures threatTypes[|threatTypes| - 1] == row
      ensures threats == old(threats) && backup == old(backup) && notifications == old(notifications)
    {
      threatTypes := threatTypes + [row];
    }

    /**
     * `removeThreatType`: the source computes a filtered list and drops it, and
     * compares each row's id with the whole reply rather than its id; the store
     * is left as it was.
     */
    method RemoveThreatType(reply: ThreatType)
      ensures unchanged(this)
    {
    }

    /** `changeThreatType`: the first row with the reply's id is replaced; without one, nothing changes. */
    method ChangeThreatType(upd: ThreatType)
      modifies this
      ensures threatTypes == Rows.ReplaceFirst(old(threatTypes), TypeKey, upd)
      ensures threats == old(threats) && backup == old(backup) && notifications == old(notifications)
    {
      var index := Rows.FindIndex(threatTypes, TypeKey, TypeKey(upd));
      if index != -1 {
        Rows.ReplaceFirstAt(threatTypes, TypeKey, upd, index);
        threatTypes := threatTypes[..index] + [upd] + threatTypes[index + 1..];
      } else {
        Rows.ReplaceFirstMissing(threatTypes, TypeKey, upd);
      }
    }

    /** `setThreats`: the collection becomes exactly the given rows. */
    method SetThreats(rows: seq<Threat>)
      modifies this
      ensures threats == rows
      ensures threatTypes == old(threatTypes) && backup == old(backup) && notifications == old(notifications)
    {
      threats := rows;
    }

    /** `newThreat`: one row appended, every earlier row kept in place. */
    method NewThreat(row: Threat)
      modifies this
      ensures |threats| == |old(threats)| + 1
      ensures threats[..|old(threats)|] == old(threats)
      ensures threats[|threats| - 1] == row
      ensures threatTypes == old(threatTypes) && backup == old(backup) && notifications == old(notifications)
    {
      threats := threats + [row];
    }

    /** `removeThreat`: as `RemoveThreatType`, the filtered list is dropped and the store is left as it was. */
    method RemoveThreat(reply: Threat)
      ensures unchanged(this)
    {
    }

    /** `changeThreat`: the first row with the reply's id is replaced; without one, nothing changes. */
    method ChangeThreat(upd: Threat)
      modifies this
      ensures threats == Rows.ReplaceFirst(old(threats), ThreatKey, upd)
      ensures threatTypes == old(threatTypes) && backup == old(backup) && notifications == old(notifications)
    {
      var index := Rows.FindIndex(threats, ThreatKey, ThreatKey(upd));
      if index != -1 {
        Rows.ReplaceFirstAt(threats, ThreatKey, upd, index);
        threats := threats[..index] + [upd] + threats[index + 1..];
      } else {
        Rows.ReplaceFirstMissing(threats, ThreatKey, upd);
      }
    }

    /** `backup`: sets the flag. */
    method Backup(value: bool)
      modifies this
      ensures backup == value
      ensures threatTypes == old(threatTypes) && threats == old(threats) && notifications == old(notifications)
    {
      backup := value;
    }

    /** `dispatch("setNotification", note)`: the notification channel, as an append-only log. */
    method Notify(note: Note)
      modifies this
      ensures notifications == old(notifications) + [note]
      ensures threatTypes == old(threatTypes) && threats == old(threats) && backup == old(backup)
    {
      notifications := notifications + [note];
    }

    // ---- actions ----

    /** The error branch shared by both `queryAll` actions: one error notification, then the flag. */
    method ReportImportError(code: int)
      modifies this
      ensures notifications == old(notifications) + [Note(ImportErrorKey(code), ErrorColor)]
      ensures backup
      ensures threatTypes == old(threatTypes) && threats == old(threats)
    {
      if code == 1 {
        Notify(Note("home.import_error_1", ErrorColor));
      } else if code == 26 {
        Notify(Note("home.import_error_26", ErrorColor));
      } else {
        Notify(Note("home.import_error_unkown", ErrorColor));
      }
      Backup(true);
    }

    /**
     * `fetchAllThreatTypes`: a numeric reply is an error code, reported and flagged,
     * with the mirror untouched; rows replace the collection and nothing else changes.
     */
    method FetchAllThreatTypes(reply: QueryReply<ThreatType>)
      modifies this
      ensures reply.Code? ==> && notifications == old(notifications) + [Note(ImportErrorKey(reply.code), ErrorColor)]
                              && backup
                              && threatTypes == old(threatTypes)
      ensures reply.Rows? ==> && threatTypes == reply.rows
                              && backup == old(backup)
                              && notifications == old(notifications)
      ensures threats == old(threats)
    {
      match reply
      case Code(code) => ReportImportError(code);
      case Rows(rows) => SetThreatTypes(rows);
    }

    /** `addThreatType`: the reply is appended without any check or notification. */
    method AddThreatType(reply: ThreatType)
      modifies this
      ensures threatTypes == old(threatTypes) + [reply]
      ensures threats == old(threats) && backup == old(backup) && notifications == old(notifications)
    {
      NewThreatType(reply);
      assert threatTypes == threatTypes[..|old(threatTypes)|] + [threatTypes[|threatTypes| - 1]];
    }

    /** `deleteThreatType`: commits the removal, which leaves the store as it was; no notification. */
    method DeleteThreatType(reply: ThreatType)
      ensures unchanged(this)
    {
      RemoveThreatType(reply);
    }

    /** `updateThreatType`: the reply replaces the first row with its id, without check or notification. */
    method UpdateThreatType(reply: ThreatType)
      modifies this
      ensures threatTypes == Rows.ReplaceFirst(old(threatTypes), TypeKey, reply)
      ensures threats == old(threats) && backup == old(backup) && notifications == old(notifications)
    {
      ChangeThreatType(reply);
    }

    /**
     * `fetchAllThreats`: a numeric reply is an error code, reported and flagged,
     * with the mirror untouched; rows replace the collection and nothing else changes.
     */
    method FetchAllThreats(reply: QueryReply<Threat>)
      modifies this
      ensures reply.Code? ==> && notifications == old(notifications) + [Note(ImportErrorKey(reply.code), ErrorColor)]
                              && backup
                              && threats == old(threats)
      ensures reply.Rows? ==> && threats == reply.rows
                              && backup == old(backup)
                              && notifications == old(notifications)
      ensures threatTypes == old(threatTypes)
    {
      match reply
      case Code(code) => ReportImportError(code);
      case Rows(rows) => SetThreats(rows);
    }

    /** The notification branch shared by the three threat write actions. */
    method ReportWrite(verb: Verb, reply: Threat)
      modifies this
      ensures notifications == old(notifications) + [WriteNote(verb, reply)]
      ensures threatTypes == old(threatTypes) && threats == old(threats) && backup == old(backup)
    {
      if IsEmptyReply(reply) {
        Notify(Note(WriteKey(verb, true), ErrorColor));
      } else {
        Notify(Note(WriteKey(verb, false), None));
      }
    }

    /**
     * `addThreat`: one notification, an error when the reply is empty and a success
     * otherwise; the reply is appended in both cases.
     */
    method AddThreat(reply: Threat)
      modifies this
      ensures notifications == old(notifications) + [WriteNote(Insert, reply)]
      ensures threats == old(threats) + [reply]
      ensures threatTypes == old(threatTypes) && backup == old(backup)
    {
      ReportWrite(Insert, reply);
      NewThreat(reply);
      assert threats == threats[..|old(threats)|] + [threats[|threats| - 1]];
    }

    /** `deleteThreat`: one notification by the reply's emptiness; the committed removal changes no row. */
    method DeleteThreat(reply: Threat)
      modifies this
      ensures notifications == old(notifications) + [WriteNote(Remove, reply)]
      ensures threats == old(threats) && threatTypes == old(threatTypes) && backup == old(backup)
    {
      ReportWrite(Remove, reply);
      RemoveThreat(reply);
    }

    /**
     * `updateThreat`: one notification by the reply's emptiness; the reply then
     * replaces the first row with its id in both cases.
     */
    method UpdateThreat(reply: Threat)
      modifies this
      ensures notifications == old(notifications) + [WriteNote(Update, reply)]
      ensures threats == Rows.ReplaceFirst(old(threats), ThreatKey, reply)
      ensures threatTypes == old(threatTypes) && backup == old(backup)
    {
      ReportWrite(Update, reply);
      ChangeThreat(reply);
    }

    // ---- getters ----

    /**
     * `getAllThreatTypes`: writes the translation for `locale` into every stored row
     * and returns the collection. Parsing the name of an empty reply throws, so the
     * loop stops there: the rows before it are translated, the rest are untouched.
     */
    method GetAllThreatTypes(locale: string) returns (r: Result<seq<ThreatType>, GetterError>)
      modifies this
      ensures threatTypes == AfterTypesRead(old(threatTypes), locale)
      ensures var stop := FirstUnparsable(old(threatTypes));
              r == if stop == |old(threatTypes)| then Success(threatTypes) else Failure(NameNotParsable(stop))
      ensures threats == old(threats) && backup == old(backup) && notifications == old(notifications)
    {
      ghost var start := threatTypes;
      ghost var stop := FirstUnparsable(start);
      var entry := if locale == "es" then "es" else "en";
      var i := 0;
      while i < |threatTypes|
        invariant 0 <= i <= stop
        invariant |threatTypes| == |start|
        invariant threatTypes == Localized(start[..i], locale) + start[i..]
        invariant threats == old(threats) && backup == old(backup) && notifications == old(notifications)
      {
        var element := threatTypes[i];
        assert element == start[i];
        if element.EmptyTypeReply? {
          assert i == stop;
          return Failure(NameNotParsable(i));
        }
        var translation := if entry in element.name then Some(element.name[entry]) else None;
        assert element.(nameTranslation := translation) == Localize(element, locale);
        ghost var before := threatTypes;
        threatTypes := threatTypes[i := element.(nameTranslation := translation)];
        StepLocalized(start, before, threatTypes, i, locale);
        i := i + 1;
      }
      assert i == stop;
      return Success(threatTypes);
    }

    /** `getAllThreats`: the stored threats as they are. */
    function GetAllThreats(): (r: seq<Threat>)
      reads this
      ensures r == threats
    {
      threats
    }

    /**
     * `getAllMergedThreats`: reads the locale-aware types (which may throw), builds
     * the type and asset tables, and writes into every stored threat the name of
     * its type and of its asset. On success the result is the joined mirror.
     */
    method GetAllMergedThreats(locale: string, assets: seq<Asset>) returns (r: Result<seq<Threat>, GetterError>)
      modifies this
      ensures threatTypes == AfterTypesRead(old(threatTypes), locale)
      ensures r.Failure? <==> FirstUnparsable(old(threatTypes)) < |old(threatTypes)|
      ensures r.Failure? ==> threats == old(threats) && r.error == NameNotParsable(FirstUnparsable(old(threatTypes)))
      ensures r.Success? ==> threats == Joined(old(threats), threatTypes, assets) && r.value == threats
      ensures backup == old(backup) && notifications == old(notifications)
    {
      var types := GetAllThreatTypes(locale);
      if types.Failure? {
        return Failure(types.error);
      }
      var typeTable := Rows.BuildTable(types.value, TypeKey, TranslationOf);
      var assetTable := Rows.BuildTable(assets, AssetKey, AssetNameOf);
      var i := 0;
      while i < |threats|
        invariant 0 <= i <= |threats| == |old(threats)|
        invariant threats == Joined(old(threats)[..i], threatTypes, assets) + old(threats)[i..]
        invariant threatTypes == types.value
        invariant backup == old(backup) && notifications == old(notifications)
      {
        var threat := threats[i];
        var typeName := Rows.Lookup(typeTable, TypeRef(threat));
        var assetName := Rows.Lookup(assetTable, AssetRef(threat));
        ghost var before := threats;
        threats := threats[i := threat.(threatTypeName := typeName, assetName := assetName)];
        StepJoined(old(threats), before, threats, threatTypes, assets, i);
        i := i + 1;
      }
      assert old(threats)[..i] == old(threats);
      return Success(threats);
    }
  }
}
