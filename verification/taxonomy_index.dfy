/**
  The forward index of json_utils.py: `get_processed_data` turns the raw tag
  document into `section -> topic -> sorted list of sub-topic values`, and
  `get_sections`, `get_topics` and `get_sub_topics` read it back for the
  dependent dropdowns.

  The index is first defined by functions over the document (SubTopicValues,
  SectionTopics, ProcessedData); the method GetProcessedData runs the
  source's nested loops and is proved to build exactly that value.
 */
module TaxonomyIndex {
  import opened TagDocument
  import opened StringOrder

  /** section value -> topic value -> sub-topic values. */
  type Index = map<string, map<string, seq<string>>>

  // ----- One sub-topic entry, one section entry -----

  /**
    The value a sub-topic entry contributes: its non-empty
    `sub_topic_name.value`, or "" when the entry is not a dictionary or the
    value is missing or falsy (json_utils.py:64-70).
   */
  function SubTopicKey(sub: Json): string
  {
    if sub.JObj? then NameKey(sub, "sub_topic_name") else ""
  }

  /**
    The topic value a section entry is indexed under, or "" when the entry
    is not a dictionary or its `topic_name.value` is missing or falsy
    (json_utils.py:46-55).
   */
  function TopicKey(item: Json): string
  {
    if item.JObj? then NameKey(item, "topic_name") else ""
  }

  /** The builder stores a topic for this entry: a topic value and a list (or no) `sub_topics`. */
  predicate Stores(item: Json)
  {
    TopicKey(item) != "" && SubTopicList(item).Some?
  }

  /**
    `subtopics_values` after the inner loop: the contributed values of the
    sub-topic entries, in list order, duplicates kept.
   */
  function SubTopicValues(subs: seq<Json>): (r: seq<string>)
    ensures |r| <= |subs|
    ensures forall v :: v in r ==> v != ""
  {
    if subs == [] then []
    else
      var init := SubTopicValues(subs[..|subs| - 1]);
      var v := SubTopicKey(subs[|subs| - 1]);
      if v != "" then init + [v] else init
  }

  /** The sorted list the builder stores for an entry it keeps (json_utils.py:76). */
  function StoredList(item: Json): (r: seq<string>)
    requires Stores(item)
    ensures IsSorted(r)
    ensures multiset(r) == multiset(SubTopicValues(SubTopicList(item).value))
    ensures forall v :: v in r ==> v != ""
  {
    var values := SubTopicValues(SubTopicList(item).value);
    var r := SortStrings(values);
    assert forall v :: v in r ==> v in values by {
      forall v | v in r ensures v in values {
        assert v in multiset(r);
      }
    }
    r
  }

  /**
    The topic map of one section whose value is a list: entries are taken in
    order and a later entry with the same topic value overwrites an earlier
    one. Every topic and every stored value is non-empty and every stored
    list is sorted.
   */
  function SectionTopics(items: seq<Json>): (r: map<string, seq<string>>)
    ensures forall t :: t in r ==> t != "" && IsSorted(r[t])
    ensures forall t :: t in r ==> forall v :: v in r[t] ==> v != ""
  {
    if items == [] then map[]
    else
      var prev := SectionTopics(items[..|items| - 1]);
      var item := items[|items| - 1];
      if Stores(item) then
        prev[TopicKey(item) := StoredList(item)]
      else prev
  }

  /** A section value that is not a list gets an empty topic map (json_utils.py:38-43). */
  function SectionIndex(section: Json): map<string, seq<string>>
  {
    if section.JArr? then SectionTopics(section.items) else map[]
  }

  /**
    `get_processed_data(raw_data)`: every section of `question_tags` is a key,
    including the ones whose value is not a list; no `question_tags` gives
    the empty index.
   */
  function ProcessedData(raw: Option<Json>): (r: Index)
    ensures !HasQuestionTags(raw) ==> r == map[]
    ensures r.Keys == QuestionTags(raw).Keys
    ensures forall s :: s in r && !QuestionTags(raw)[s].JArr? ==> r[s] == map[]
  {
    var qt := QuestionTags(raw);
    map s | s in qt :: SectionIndex(qt[s])
  }

  // ----- Inputs on which get_processed_data does not raise -----

  /**
    Each dictionary entry has a dictionary `topic_name` (when present) whose
    value is falsy or a string; in an entry the builder gets as far as the
    sub-topic loop, each dictionary sub-topic entry is shaped the same way.
   */
  predicate EntryShaped(item: Json)
  {
    item.JObj? ==>
      && ValueShaped(item, "topic_name")
      && (TopicKey(item) != "" && SubTopicList(item).Some? ==>
            forall sub :: sub in SubTopicList(item).value ==> ValueShaped(sub, "sub_topic_name"))
  }

  /** Every entry of a section list is shaped as EntryShaped says. */
  predicate ItemsShaped(items: seq<Json>)
  {
    forall item :: item in items ==> EntryShaped(item)
  }

  /** get_processed_data runs on `raw` without raising. */
  predicate BuildSafe(raw: Option<Json>)
  {
    && TagsShaped(raw)
    && forall s :: s in QuestionTags(raw) && QuestionTags(raw)[s].JArr? ==> ItemsShaped(QuestionTags(raw)[s].items)
  }

  /**
    The sub-topic loop of get_processed_data (json_utils.py:57-71): appends
    the value of every dictionary sub-topic entry whose value is truthy.
   */
  method CollectSubTopicValues(subs: seq<Json>) returns (subtopicsValues: seq<string>)
    requires forall sub :: sub in subs ==> ValueShaped(sub, "sub_topic_name")
    ensures subtopicsValues == SubTopicValues(subs)
  {
    subtopicsValues := [];
    for k := 0 to |subs|
      invariant subtopicsValues == SubTopicValues(subs[..k])
    {
      var subtopicDataItem := subs[k];
      assert subs[..k + 1][..k] == subs[..k];
      if !subtopicDataItem.JObj? {
        continue;
      }
      var subTopicNameData := NameData(subtopicDataItem, "sub_topic_name");
      var subtopicValue := Lookup(subTopicNameData, "value");
      ValueTruthyIffKey(subtopicDataItem, "sub_topic_name");
      if subtopicValue.Some? && Truthy(subtopicValue.value) {
        subtopicsValues := subtopicsValues + [subtopicValue.value.s];
      }
    }
    assert subs[..|subs|] == subs;
  }

  /**
    The entry loop of get_processed_data (json_utils.py:45-76) for one
    section whose value is a list: skips malformed entries one at a time and
    stores (overwriting) the sorted sub-topic values of every other one.
   */
  method IndexSectionItems(items: seq<Json>) returns (topics: map<string, seq<string>>)
    requires ItemsShaped(items)
    ensures topics == SectionTopics(items)
  {
    topics := map[];
    for j := 0 to |items|
      invariant topics == SectionTopics(items[..j])
    {
      var sectionDataItem := items[j];
      assert items[..j + 1][..j] == items[..j];
      assert EntryShaped(sectionDataItem);
      if !sectionDataItem.JObj? {
        continue;
      }
      var topicNameData := NameData(sectionDataItem, "topic_name");
      var topicValue := Lookup(topicNameData, "value");
      ValueTruthyIffKey(sectionDataItem, "topic_name");
      if topicValue.None? || !Truthy(topicValue.value) {
        continue;
      }
      var subTopicsList := if "sub_topics" in sectionDataItem.fields then sectionDataItem.fields["sub_topics"] else JArr([]);
      if !subTopicsList.JArr? {
        continue;
      }
      var subtopicsValues := CollectSubTopicValues(subTopicsList.items);
      topics := topics[topicValue.value.s := SortStrings(subtopicsValues)];
    }
    assert items[..|items|] == items;
  }

  /** get_processed_data (json_utils.py:22-78): the section loop. */
  method GetProcessedData(raw: Option<Json>) returns (updatedData: Index)
    requires BuildSafe(raw)
    ensures updatedData == ProcessedData(raw)
  {
    if raw.None? || !Truthy(raw.value) || !Contains(raw.value, "question_tags") {
      return map[];
    }
    var questionTagsData := raw.value.fields["question_tags"].fields;
    assert questionTagsData == QuestionTags(raw);
    updatedData := map[];
    var sectionKeys := SortedKeyList(questionTagsData.Keys);
    for i := 0 to |sectionKeys|
      invariant forall k :: 0 <= k < i ==> sectionKeys[k] in updatedData
      invariant forall s :: s in updatedData ==> s in questionTagsData && updatedData[s] == SectionIndex(questionTagsData[s])
    {
      var sectionKey := sectionKeys[i];
      updatedData := updatedData[sectionKey := map[]];
      var sectionItems := questionTagsData[sectionKey];
      if !sectionItems.JArr? {
        continue;
      }
      var topics := IndexSectionItems(sectionItems.items);
      updatedData := updatedData[sectionKey := topics];
    }
    assert updatedData.Keys == questionTagsData.Keys by {
      forall s | s in questionTagsData ensures s in updatedData {
        assert s in sectionKeys;
      }
    }
  }

  // ----- What the index says about the document -----

  /** A topic is in a section's map iff some entry of the section is stored under it. */
  lemma {:induction false} TopicPresentIff(items: seq<Json>, t: string)
    ensures t in SectionTopics(items) <==>
              exists k :: 0 <= k < |items| && Stores(items[k]) && TopicKey(items[k]) == t
  {
    if items != [] {
      var init := items[..|items| - 1];
      TopicPresentIff(init, t);
      if exists k :: 0 <= k < |items| && Stores(items[k]) && TopicKey(items[k]) == t {
        var k :| 0 <= k < |items| && Stores(items[k]) && TopicKey(items[k]) == t;
        if k < |items| - 1 {
          assert init[k] == items[k];
        }
      }
      if exists k :: 0 <= k < |init| && Stores(init[k]) && TopicKey(init[k]) == t {
        var k :| 0 <= k < |init| && Stores(init[k]) && TopicKey(init[k]) == t;
        assert items[k] == init[k];
      }
    }
  }

  /**
    When several entries share a topic value, the last of them decides the
    stored list, whatever the earlier ones held.
   */
  lemma {:induction false} LastEntryWins(items: seq<Json>, k: nat)
    requires k < |items| && Stores(items[k])
    requires forall k' :: k < k' < |items| && Stores(items[k']) ==> TopicKey(items[k']) != TopicKey(items[k])
    ensures TopicKey(items[k]) in SectionTopics(items)
    ensures SectionTopics(items)[TopicKey(items[k])] == StoredList(items[k])
  {
    var init := items[..|items| - 1];
    if k < |items| - 1 {
      forall k' | k < k' < |init| && Stores(init[k'])
        ensures TopicKey(init[k']) != TopicKey(init[k])
      {
        assert init[k'] == items[k'];
      }
      assert init[k] == items[k];
      LastEntryWins(init, k);
    }
  }

  /** Every collected value is the value of some sub-topic entry. */
  lemma {:induction false} CollectedValueSource(subs: seq<Json>, v: string)
    requires v in SubTopicValues(subs)
    ensures exists j :: 0 <= j < |subs| && SubTopicKey(subs[j]) == v
  {
    var init := subs[..|subs| - 1];
    if SubTopicKey(subs[|subs| - 1]) != v {
      CollectedValueSource(init, v);
      var j :| 0 <= j < |init| && SubTopicKey(init[j]) == v;
      assert subs[j] == init[j];
    }
  }

  /**
    Every value stored under a topic of a section comes from an entry that
    the builder stores under that topic.
   */
  lemma {:induction false} StoredValueSource(items: seq<Json>, t: string, v: string)
    requires t in SectionTopics(items) && v in SectionTopics(items)[t]
    ensures exists k :: 0 <= k < |items| && Stores(items[k]) && TopicKey(items[k]) == t && v in StoredList(items[k])
  {
    var init := items[..|items| - 1];
    var last := items[|items| - 1];
    if !(Stores(last) && TopicKey(last) == t) {
      StoredValueSource(init, t, v);
      var k :| 0 <= k < |init| && Stores(init[k]) && TopicKey(init[k]) == t && v in StoredList(init[k]);
      assert items[k] == init[k];
    }
  }

  /** The positions of the sub-topic entries that contribute `v`. */
  function Contributors(subs: seq<Json>, v: string): set<nat>
  {
    set k: nat | k < |subs| && SubTopicKey(subs[k]) == v
  }

  lemma ContributorsOfPrefix(subs: seq<Json>, v: string)
    requires subs != []
    ensures Contributors(subs, v) ==
              Contributors(subs[..|subs| - 1], v) + (if SubTopicKey(subs[|subs| - 1]) == v then {|subs| - 1} else {})
    ensures |subs| - 1 !in Contributors(subs[..|subs| - 1], v)
  {
    var n := |subs| - 1;
    forall k: nat | k < n ensures subs[..n][k] == subs[k] { }
  }

  /**
    How often a value occurs in SubTopicValues is the number of sub-topic
    entries that contribute it: the collection keeps duplicates and drops
    only the entries without a value.
   */
  lemma {:induction false} SubTopicValuesCount(subs: seq<Json>, v: string)
    requires v != ""
    ensures multiset(SubTopicValues(subs))[v] == |Contributors(subs, v)|
  {
    if subs == [] {
      assert Contributors(subs, v) == {};
    } else {
      var n := |subs| - 1;
      SubTopicValuesCount(subs[..n], v);
      ContributorsOfPrefix(subs, v);
    }
  }

  /**
    A stored sub-topic list is sorted and holds each value exactly as often
    as the entry's sub-topic items contribute it.
   */
  lemma StoredListCount(item: Json, v: string)
    requires Stores(item) && v != ""
    ensures IsSorted(StoredList(item))
    ensures multiset(StoredList(item))[v] == |Contributors(SubTopicList(item).value, v)|
  {
    SubTopicValuesCount(SubTopicList(item).value, v);
  }

  // ----- The accessors of the index (json_utils.py:81-96) -----

  /** get_sections: the section keys in ascending order. */
  function Sections(index: Index): (r: seq<string>)
    ensures IsStrictlySorted(r)
    ensures forall s :: s in r <==> s in index
    ensures |r| == |index|
  {
    SortedElements(index.Keys)
  }

  /** get_topics: the topic keys of a section in ascending order, [] for an unknown section. */
  function Topics(index: Index, section: string): (r: seq<string>)
    ensures section !in index ==> r == []
    ensures section in index ==> IsStrictlySorted(r) && forall t :: t in r <==> t in index[section]
  {
    if section in index then SortedElements(index[section].Keys) else []
  }

  /** get_sub_topics: the stored list sorted, [] for an unknown section or topic. */
  function SubTopics(index: Index, section: string, topic: string): (r: seq<string>)
    ensures !(section in index && topic in index[section]) ==> r == []
    ensures section in index && topic in index[section] ==>
              IsSorted(r) && multiset(r) == multiset(index[section][topic])
  {
    if section in index && topic in index[section] then SortStrings(index[section][topic]) else []
  }

  // ----- The accessors over a built index -----

  /**
    The topics offered for a section of the document are exactly the topic
    values of its stored entries, in ascending order.
   */
  lemma TopicsOfDocument(raw: Option<Json>, section: string, t: string)
    requires section in QuestionTags(raw)
    ensures IsStrictlySorted(Topics(ProcessedData(raw), section))
    ensures t in Topics(ProcessedData(raw), section) <==>
              && QuestionTags(raw)[section].JArr?
              && exists k :: 0 <= k < |QuestionTags(raw)[section].items| &&
                   Stores(QuestionTags(raw)[section].items[k]) &&
                   TopicKey(QuestionTags(raw)[section].items[k]) == t
  {
    if QuestionTags(raw)[section].JArr? {
      TopicPresentIff(QuestionTags(raw)[section].items, t);
    }
  }

  /**
    The sub-topics offered for a topic are the stored list of the last entry
    with that topic value, unchanged by the accessor's own sort.
   */
  lemma SubTopicsOfDocument(raw: Option<Json>, section: string, k: nat)
    requires section in QuestionTags(raw) && QuestionTags(raw)[section].JArr?
    requires k < |QuestionTags(raw)[section].items| && Stores(QuestionTags(raw)[section].items[k])
    requires forall k' :: k < k' < |QuestionTags(raw)[section].items| && Stores(QuestionTags(raw)[section].items[k']) ==>
               TopicKey(QuestionTags(raw)[section].items[k']) != TopicKey(QuestionTags(raw)[section].items[k])
    ensures SubTopics(ProcessedData(raw), section, TopicKey(QuestionTags(raw)[section].items[k])) ==
              StoredList(QuestionTags(raw)[section].items[k])
  {
    var items := QuestionTags(raw)[section].items;
    LastEntryWins(items, k);
    SortStringsOfSorted(StoredList(items[k]));
  }
}
