/**
  The raw tag document: parsed JSON, and the way json_utils.py reads its
  records.

  The document root holds `question_tags`, a dictionary from section values
  to lists of section entries
    { "topic_name": {"value", "label"}, "sub_topics": [sub-topic entry, ...] }
  and each sub-topic entry is { "sub_topic_name": {"value", "label"} }.
  Nothing about that shape is guaranteed; the readers below follow the
  Python `dict.get` calls with their defaults.
 */
module TagDocument {

  datatype Option<T> = None | Some(value: T)

  /** A parsed JSON value (floats are not modelled). */
  datatype Json =
    | JNull
    | JBool(b: bool)
    | JInt(i: int)
    | JStr(s: string)
    | JArr(items: seq<Json>)
    | JObj(fields: map<string, Json>)

  /** Python truthiness of a parsed JSON value. */
  predicate Truthy(j: Json)
  {
    match j
    case JNull => false
    case JBool(b) => b
    case JInt(i) => i != 0
    case JStr(s) => s != ""
    case JArr(xs) => xs != []
    case JObj(m) => m != map[]
  }

  /** `d.get(key)` on a dictionary. */
  function Lookup(d: map<string, Json>, key: string): (r: Option<Json>)
    ensures r.Some? <==> key in d
    ensures r.Some? ==> r.value == d[key]
  {
    if key in d then Some(d[key]) else None
  }

  /**
    `item.get(key, {})` for the name record `key` ("topic_name" or
    "sub_topic_name") of an entry. A present name record that is not a
    dictionary would make the next `.get` raise; callers exclude it with
    NameShaped, and it reads as the empty dictionary here.
   */
  function NameData(item: Json, key: string): map<string, Json>
  {
    if item.JObj? && key in item.fields && item.fields[key].JObj? then item.fields[key].fields else map[]
  }

  /** `item.get(key, {}).get('value')`. */
  function NameValue(item: Json, key: string): Option<Json>
  {
    Lookup(NameData(item, key), "value")
  }

  /**
    `item.get(key, {}).get('label')`. Python gives `None` both for a missing
    label and for a JSON `null` label, so both read as None.
   */
  function LabelOf(item: Json, key: string): (r: Option<Json>)
    ensures r.Some? ==> r.value != JNull && Lookup(NameData(item, key), "label") == r
    ensures r.None? ==> Lookup(NameData(item, key), "label") in {None, Some(JNull)}
  {
    match Lookup(NameData(item, key), "label")
    case Some(JNull) => None
    case other => other
  }

  /**
    The string a name record's `value` stands for when it is used as an index
    key: the string itself, or "" (skipped, like any falsy value).
   */
  function NameKey(item: Json, key: string): (r: string)
    ensures r != "" ==> NameValue(item, key) == Some(JStr(r))
    ensures NameValue(item, key).Some? && NameValue(item, key).value.JStr? ==> r == NameValue(item, key).value.s
  {
    match NameValue(item, key)
    case Some(JStr(s)) => s
    case _ => ""
  }

  /**
    `item.get('sub_topics', [])` when it is a list: Some of its items
    (Some([]) when the key is missing), None when it is anything else.
   */
  function SubTopicList(item: Json): (r: Option<seq<Json>>)
    ensures item.JObj? && "sub_topics" !in item.fields ==> r == Some([])
    ensures item.JObj? && "sub_topics" in item.fields ==>
              (r.Some? <==> item.fields["sub_topics"].JArr?)
  {
    if !item.JObj? then None
    else match Lookup(item.fields, "sub_topics")
      case None => Some([])
      case Some(JArr(xs)) => Some(xs)
      case Some(_) => None
  }

  /** `p` occurs in `s` as a contiguous piece: Python's `p in s` on two `str` values. */
  predicate IsSubstring(p: string, s: string)
  {
    p <= s || (s != [] && IsSubstring(p, s[1..]))
  }

  /** The values on which Python's `key in j` is defined: dictionaries, lists and strings. */
  predicate HasMembership(j: Json)
  {
    j.JObj? || j.JArr? || j.JStr?
  }

  /**
    Python's `key in j` for a string `key`: a dictionary key, an element of a
    list, or a substring of a string (false on the other values, on which
    Python raises; callers exclude those with HasMembership).
   */
  predicate Contains(j: Json, key: string)
  {
    match j
    case JObj(m) => key in m
    case JArr(xs) => JStr(key) in xs
    case JStr(str) => IsSubstring(key, str)
    case _ => false
  }

  /**
    The negation of `not raw_data or "question_tags" not in raw_data`: the
    fetch produced a truthy value that contains "question_tags".
   */
  predicate HasQuestionTags(raw: Option<Json>)
  {
    raw.Some? && Truthy(raw.value) && Contains(raw.value, "question_tags")
  }

  /**
    `raw_data.get("question_tags", {})` as a dictionary once HasQuestionTags
    holds of a dictionary root; otherwise empty.
   */
  function QuestionTags(raw: Option<Json>): (qt: map<string, Json>)
    ensures !HasQuestionTags(raw) ==> qt == map[]
  {
    if HasQuestionTags(raw) && raw.value.JObj? && raw.value.fields["question_tags"].JObj? then
      raw.value.fields["question_tags"].fields
    else map[]
  }

  // ----- Inputs on which the Python code does not raise -----

  /**
    The root is absent, falsy, or a value `in` is defined on; a list or
    string root must not contain "question_tags", or the following
    `raw_data.get` raises. A list or string root without it is answered
    like a missing key.
   */
  predicate RootShaped(raw: Option<Json>)
  {
    raw.None? || !Truthy(raw.value) || (HasMembership(raw.value) && (HasQuestionTags(raw) ==> raw.value.JObj?))
  }

  /** As RootShaped, and a present `question_tags` is a dictionary, as `.keys()` needs. */
  predicate TagsShaped(raw: Option<Json>)
  {
    && RootShaped(raw)
    && (HasQuestionTags(raw) ==> raw.value.fields["question_tags"].JObj?)
  }

  /**
    As RootShaped, and a present `question_tags` is a value `in` is defined
    on; when it contains `section` it is a dictionary, or the following
    `.get(section)` raises. A list or string without `section` is answered
    like a missing section.
   */
  predicate SectionTagsShaped(raw: Option<Json>, section: string)
  {
    && RootShaped(raw)
    && (HasQuestionTags(raw) ==>
          && HasMembership(raw.value.fields["question_tags"])
          && (Contains(raw.value.fields["question_tags"], section) ==> raw.value.fields["question_tags"].JObj?))
  }

  /** `item.get(key, {})` is a dictionary, so `.get('value')` on it does not raise. */
  predicate NameShaped(item: Json, key: string)
  {
    item.JObj? && key in item.fields ==> item.fields[key].JObj?
  }

  /**
    Also the name record's `value` is falsy or a string: a truthy non-string
    value would be an unhashable dictionary key or be compared with strings
    by `sorted`, both of which raise.
   */
  predicate ValueShaped(item: Json, key: string)
  {
    && NameShaped(item, key)
    && (NameValue(item, key).None? || !Truthy(NameValue(item, key).value) || NameValue(item, key).value.JStr?)
  }

  /** Under ValueShaped, Python's truth test on the value agrees with NameKey. */
  lemma ValueTruthyIffKey(item: Json, key: string)
    requires ValueShaped(item, key)
    ensures (NameValue(item, key).Some? && Truthy(NameValue(item, key).value)) <==> NameKey(item, key) != ""
  {
  }
}
