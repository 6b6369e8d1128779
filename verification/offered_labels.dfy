/**
  The dropdowns and the labels together: every topic and sub-topic value the
  index offers has a label lookup that finds a matching record of the raw
  document. The lookup scans the document afresh and answers with the FIRST
  matching record, which need not be the record the index kept: the builder
  drops a record with non-list `sub_topics` and keeps the LAST record of a
  duplicated topic, while the lookups pass over neither.
 */
module OfferedLabels {
  import opened TagDocument
  import opened StringOrder
  import opened TaxonomyIndex
  import opened LabelLookup

  /** A section with an offered topic is present in the document as a list. */
  lemma OfferedSection(raw: Option<Json>, section: string, t: string)
    requires t in Topics(ProcessedData(raw), section)
    ensures section in QuestionTags(raw) && QuestionTags(raw)[section].JArr?
    ensures t in SectionTopics(QuestionTags(raw)[section].items)
  {
  }

  /**
    For a topic get_topics offers, get_topic_label answers with the label of
    the first entry of the section whose topic value matches.
   */
  lemma OfferedTopicLabel(raw: Option<Json>, section: string, t: string)
    requires TopicLookupSafe(raw, section)
    requires t in Topics(ProcessedData(raw), section)
    ensures section in QuestionTags(raw) && QuestionTags(raw)[section].JArr?
    ensures var items := QuestionTags(raw)[section].items;
            exists k :: 0 <= k < |items| && MatchesTopic(items[k], t) &&
              (forall k' :: 0 <= k' < k ==> !MatchesTopic(items[k'], t)) &&
              TopicLabel(raw, section, t) == LabelOf(items[k], "topic_name")
  {
    OfferedSection(raw, section, t);
    var items := QuestionTags(raw)[section].items;
    TopicPresentIff(items, t);
    var k :| 0 <= k < |items| && Stores(items[k]) && TopicKey(items[k]) == t;
    var k0 := FirstTopicMatch(items, t, k);
    TopicLabelFirstMatch(items, t, k0);
  }

  /** An offered sub-topic value is held by a stored entry of its topic. */
  lemma OfferedSubTopicHeld(raw: Option<Json>, section: string, t: string, v: string)
    requires v in SubTopics(ProcessedData(raw), section, t)
    ensures section in QuestionTags(raw) && QuestionTags(raw)[section].JArr?
    ensures exists k :: 0 <= k < |QuestionTags(raw)[section].items| && HasSubTopicMatch(QuestionTags(raw)[section].items[k], t, v)
  {
    var index := ProcessedData(raw);
    assert v in multiset(SubTopics(index, section, t));
    OfferedSection(raw, section, t);
    var items := QuestionTags(raw)[section].items;
    StoredValueSource(items, t, v);
    var k :| 0 <= k < |items| && Stores(items[k]) && TopicKey(items[k]) == t && v in StoredList(items[k]);
    var subs := SubTopicList(items[k]).value;
    assert v in multiset(StoredList(items[k]));
    CollectedValueSource(subs, v);
    var j :| 0 <= j < |subs| && SubTopicKey(subs[j]) == v;
    assert MatchesSubTopic(subs[j], v);
    assert HasSubTopicMatch(items[k], t, v);
  }

  /**
    For a sub-topic get_sub_topics offers, get_sub_topic_label answers with
    the label of the first matching sub-topic entry of the first entry that
    holds the sub-topic.
   */
  lemma OfferedSubTopicLabel(raw: Option<Json>, section: string, t: string, v: string)
    requires SubTopicLookupSafe(raw, section, t)
    requires v in SubTopics(ProcessedData(raw), section, t)
    ensures section in QuestionTags(raw) && QuestionTags(raw)[section].JArr?
    ensures var items := QuestionTags(raw)[section].items;
            exists k, j :: 0 <= k < |items| && HasSubTopicMatch(items[k], t, v) &&
              (forall k' :: 0 <= k' < k ==> !HasSubTopicMatch(items[k'], t, v)) &&
              0 <= j < |SubTopicList(items[k]).value| && MatchesSubTopic(SubTopicList(items[k]).value[j], v) &&
              (forall j' :: 0 <= j' < j ==> !MatchesSubTopic(SubTopicList(items[k]).value[j'], v)) &&
              SubTopicLabel(raw, section, t, v) == LabelOf(SubTopicList(items[k]).value[j], "sub_topic_name")
  {
    OfferedSubTopicHeld(raw, section, t, v);
    var items := QuestionTags(raw)[section].items;
    var k :| 0 <= k < |items| && HasSubTopicMatch(items[k], t, v);
    var k0, j0 := FirstHeldSubTopic(items, t, v, k);
    assert SubTopicLabel(raw, section, t, v) == ScanSubTopicLabel(items, t, v);
    assert SubTopicLabel(raw, section, t, v) == LabelOf(SubTopicList(items[k0]).value[j0], "sub_topic_name");
  }
}
