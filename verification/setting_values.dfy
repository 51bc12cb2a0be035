/**
 Values that the export-layers settings layer moves between form controls and
 the host's persistent settings. The persisted format is JSON; this model works
 on the decoded values, which JSON encodes and decodes without loss for the
 scalars used here (integers, booleans, strings and null).
 */
module SettingValues {

  /** A JSON scalar: what a form control holds and what a flat settings mapping stores. */
  datatype Value = VInt(i: int) | VBool(b: bool) | VStr(s: string) | VNull

  datatype Option<+T> = None | Some(value: T)

  /** A flat settings mapping: setting name to value (one per document). */
  type SubDict = map<string, Value>

  /** One persisted collection: key (a document path) to flat settings mapping. */
  type Collection = map<string, SubDict>
}
