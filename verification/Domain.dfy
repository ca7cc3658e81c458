/** The values the workspace plane stores: JSON documents and pipeline rows. */
module Domain {
  import opened Basics

  // ---- JSON ----

  datatype Json =
    | Null
    | Bool(b: bool)
    | Num(n: int)
    | Str(s: string)
    | Arr(elems: seq<Json>)
    | Obj(fields: map<string, Json>)

  /** json.RawMessage: None is the nil or empty message. */
  type RawJson = Option<Json>

  const EMPTY_OBJECT: Json := Obj(map[])

  /** isEmptyJSON: nil, "", "{}" and "null" all count as no value. */
  predicate IsEmptyJson(raw: RawJson) {
    raw.None? || raw.value == Null || raw.value == EMPTY_OBJECT
  }

  /** json.Unmarshal of an optional string member into a string field: absent
      and null leave "", a string is taken, anything else is a type error. */
  function StringMember(fields: map<string, Json>, key: string): Option<string> {
    if key !in fields || fields[key] == Null then Some("")
    else if fields[key].Str? then Some(fields[key].s)
    else None
  }

  // ---- Pipelines ----

  type PipelineID = string

  const FILE_UPLOAD := "file_upload"
  const FILESYSTEM := "filesystem"

  /** One row of the pipelines table (a single workspace, so no tenant column). */
  datatype Pipeline = Pipeline(
    id: PipelineID,
    name: string,
    sourceType: string,
    sourceConfig: RawJson,
    credentials: RawJson,
    datasetName: string,
    schedule: string,
    writeDisposition: string,
    mergeStrategy: string,
    enabled: bool,
    credentialsExternal: bool)

  ghost predicate DistinctIds(ps: seq<Pipeline>) {
    forall i, j :: 0 <= i < j < |ps| ==> ps[i].id != ps[j].id
  }

  // ---- Identifiers ----

  predicate IsHex(c: char) {
    '0' <= c <= '9' || 'a' <= c <= 'f' || 'A' <= c <= 'F'
  }

  /** The 36-character form 8-4-4-4-12. */
  predicate StandardUuid(s: string) {
    && |s| == 36
    && s[8] == s[13] == s[18] == s[23] == '-'
    && forall i :: 0 <= i < 36 && i != 8 && i != 13 && i != 18 && i != 23 ==> IsHex(s[i])
  }

  predicate UrnPrefix(s: string) {
    && |s| >= 9
    && s[0] in "uU" && s[1] in "rR" && s[2] in "nN" && s[3] == ':'
    && s[4] in "uU" && s[5] in "uU" && s[6] in "iI" && s[7] in "dD" && s[8] == ':'
  }

  predicate IsUrn(s: string) {
    |s| == 45 && UrnPrefix(s)
  }

  /** uuid.Validate: the standard form, the urn: and braced forms, or 32 bare
      hexadecimal digits. */
  predicate ValidUuid(s: string) {
    || StandardUuid(s)
    || (IsUrn(s) && StandardUuid(s[9..]))
    || (|s| == 38 && s[0] == '{' && s[37] == '}' && StandardUuid(s[1..37]))
    || (|s| == 32 && forall i :: 0 <= i < 32 ==> IsHex(s[i]))
  }
}
