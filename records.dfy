/**
 * The records the store mirrors, the replies the backend sends for them,
 * and the notifications the actions emit.
 */
module Records {
  import opened Wrappers

  /** A record id as JavaScript reads it: `None` is `undefined` (a row that is not a record has no id). */
  type Key = Option<int>

  /**
   * A row of `threat_types`. `name` is the decoded locale-to-text map the backend
   * stores as JSON text; `nameTranslation` is derived by the locale-aware getter.
   * `EmptyTypeReply` is an empty reply to a write that the actions committed as a row.
   */
  datatype ThreatType =
    | ThreatType(id: int, name: map<string, string>, nameTranslation: Option<string>)
    | EmptyTypeReply

  /**
   * A row of `threats`. `details` carries the other attributes (description,
   * mitigation, ...) untouched; `threatTypeName` and `assetName` are derived
   * by the join. `EmptyThreatReply` is an empty reply to a write, committed as a
   * row; the join still writes the two derived fields onto it.
   */
  datatype Threat =
    | Threat(id: int, threatTypeId: int, assetId: int, details: map<string, string>,
             threatTypeName: Option<string>, assetName: Option<string>)
    | EmptyThreatReply(threatTypeName: Option<string>, assetName: Option<string>)

  /** A row of the asset collection, which a sibling store owns. */
  datatype Asset = Asset(id: int, name: string)

  /** The reply to a `queryAll` request: a bare error code, or the rows of the table. */
  datatype QueryReply<T> = Code(code: int) | Rows(rows: seq<T>)

  /** One message on the notification channel: a translation key and an optional colour. */
  datatype Note = Note(text: string, color: Option<string>)

  /** The three write verbs whose replies the threat actions check. */
  datatype Verb = Insert | Remove | Update

  function TypeKey(t: ThreatType): Key
  {
    if t.ThreatType? then Some(t.id) else None
  }

  function ThreatKey(t: Threat): Key
  {
    if t.Threat? then Some(t.id) else None
  }

  /** `threat.threat_type_id`, undefined on an empty reply. */
  function TypeRef(t: Threat): Key
  {
    if t.Threat? then Some(t.threatTypeId) else None
  }

  /** `threat.asset_id`, undefined on an empty reply. */
  function AssetRef(t: Threat): Key
  {
    if t.Threat? then Some(t.assetId) else None
  }

  function AssetKey(a: Asset): Key
  {
    Some(a.id)
  }

  /** `threatType.name_translation`; an empty reply never gets one. */
  function TranslationOf(t: ThreatType): Option<string>
  {
    if t.ThreatType? then t.nameTranslation else None
  }

  function AssetNameOf(a: Asset): Option<string>
  {
    Some(a.name)
  }

  /** `response.length == 0`: only an empty reply has length 0; a record has no length. */
  predicate IsEmptyReply(t: Threat)
    ensures IsEmptyReply(t) <==> ThreatKey(t) == None
  {
    t.EmptyThreatReply?
  }

  /** The notification colour of every failure branch. */
  const ErrorColor: Option<string> := Some("error")

  /**
   * The translation key a failed `queryAll` reports: code 1 (the table does not
   * exist), code 26 (the file is not a database), and any other code.
   */
  function ImportErrorKey(code: int): (key: string)
    ensures key == "home.import_error_1" <==> code == 1
    ensures key == "home.import_error_26" <==> code == 26
    ensures key == "home.import_error_unkown" <==> code != 1 && code != 26
  {
    match code
    case 1 => "home.import_error_1"
    case 26 => "home.import_error_26"
    case _ => "home.import_error_unkown"
  }

  /** The translation key a threat write reports, by verb and by whether the reply was empty. */
  function WriteKey(verb: Verb, failed: bool): (key: string)
    ensures failed <==> key in {"threats.insert_error", "global.delete_error", "threats.edit_error"}
    ensures !failed <==> key in {"threats.insert_success", "global.delete_success", "threats.edit_success"}
  {
    match verb
    case Insert => if failed then "threats.insert_error" else "threats.insert_success"
    case Remove => if failed then "global.delete_error" else "global.delete_success"
    case Update => if failed then "threats.edit_error" else "threats.edit_success"
  }

  /** The notification a threat write emits for `reply`: a coloured error when it is empty. */
  function WriteNote(verb: Verb, reply: Threat): (note: Note)
    ensures note.color == ErrorColor <==> IsEmptyReply(reply)
    ensures note.color == None <==> !IsEmptyReply(reply)
  {
    if IsEmptyReply(reply) then Note(WriteKey(verb, true), ErrorColor)
    else Note(WriteKey(verb, false), None)
  }

  /** The three codes of the error dispatch give three different notifications. */
  lemma ImportErrorKeysDistinct(other: int)
    requires other != 1 && other != 26
    ensures ImportErrorKey(1) != ImportErrorKey(26)
    ensures ImportErrorKey(1) != ImportErrorKey(other)
    ensures ImportErrorKey(26) != ImportErrorKey(other)
  {
  }
}
