/**
  The worked example of the taxonomy, over arbitrary strings: one section
  whose first entry is topic `t2` with sub-topics `b`, `a` and whose second
  is topic `t1` with no sub-topics, where `t1 < t2` and `a < b`; and a
  section in which one entry lacks `topic_name`.
 */
module TaxonomyExample {
  import opened TagDocument
  import opened StringOrder
  import opened TaxonomyIndex
  import opened LabelLookup

  /** A name record {"value": value, "label": display}. */
  function Name(value: string, display: string): Json
  {
    JObj(map["value" := JStr(value), "label" := JStr(display)])
  }

  /** A sub-topic entry {"sub_topic_name": name}. */
  function SubEntry(value: string, display: string): Json
  {
    JObj(map["sub_topic_name" := Name(value, display)])
  }

  /** A section entry {"topic_name": name, "sub_topics": subs}. */
  function TopicEntry(value: string, display: string, subs: seq<Json>): Json
  {
    JObj(map["topic_name" := Name(value, display), "sub_topics" := JArr(subs)])
  }

  /** A document whose `question_tags` has the one section `section`. */
  function OneSection(section: string, items: seq<Json>): Option<Json>
  {
    Some(JObj(map["question_tags" := JObj(map[section := JArr(items)])]))
  }

  lemma OneSectionTags(section: string, items: seq<Json>)
    ensures QuestionTags(OneSection(section, items)) == map[section := JArr(items)]
  {
  }

  lemma OneSectionIndex(section: string, items: seq<Json>)
    ensures ProcessedData(OneSection(section, items)) == map[section := SectionTopics(items)]
  {
    OneSectionTags(section, items);
  }

  /** The topic map of a section of two storing entries. */
  lemma TwoEntries(first: Json, second: Json)
    requires Stores(first) && Stores(second)
    ensures SectionTopics([first, second]) == map[TopicKey(first) := StoredList(first)][TopicKey(second) := StoredList(second)]
  {
    assert [first, second][..1] == [first];
    assert [first][..0] == [];
    assert SectionTopics([first]) == map[TopicKey(first) := StoredList(first)];
  }

  /** Two storing entries with the same topic value: the second overwrites the first. */
  lemma SameTopicTwice(first: Json, second: Json)
    requires Stores(first) && Stores(second) && TopicKey(first) == TopicKey(second)
    ensures SectionTopics([first, second]) == map[TopicKey(second) := StoredList(second)]
  {
    TwoEntries(first, second);
    OverwriteKey(TopicKey(first), StoredList(first), StoredList(second));
  }

  lemma OverwriteKey(k: string, x: seq<string>, y: seq<string>)
    ensures map[k := x][k := y] == map[k := y]
  {
  }

  lemma SubEntryKey(value: string, display: string)
    ensures SubTopicKey(SubEntry(value, display)) == value
  {
  }

  lemma TopicEntryFacts(value: string, display: string, subs: seq<Json>)
    requires value != ""
    ensures Stores(TopicEntry(value, display, subs)) && TopicKey(TopicEntry(value, display, subs)) == value
    ensures SubTopicList(TopicEntry(value, display, subs)) == Some(subs)
  {
  }

  /** The sub-topics `b`, `a` are stored as [a, b]. */
  lemma StoredPair(t2: string, a: string, b: string)
    requires t2 != "" && a != "" && b != "" && LexLess(a, b)
    ensures StoredList(TopicEntry(t2, "Topic Two", [SubEntry(b, "B"), SubEntry(a, "A")])) == [a, b]
  {
    var subs := [SubEntry(b, "B"), SubEntry(a, "A")];
    TopicEntryFacts(t2, "Topic Two", subs);
    SubEntryKey(b, "B");
    SubEntryKey(a, "A");
    assert subs[..1] == [SubEntry(b, "B")];
    assert SubTopicValues(subs) == [b, a];
    if LexLe(b, a) {
      LexLeAntisymmetric(a, b);
    }
    assert SortStrings([a]) == [a];
  }

  lemma StoredEmpty(t1: string)
    requires t1 != ""
    ensures StoredList(TopicEntry(t1, "Topic One", [])) == []
  {
    TopicEntryFacts(t1, "Topic One", []);
  }

  /** The example document for the section `s`. */
  function ExampleDoc(s: string, t1: string, t2: string, a: string, b: string): Option<Json>
  {
    OneSection(s, [TopicEntry(t2, "Topic Two", [SubEntry(b, "B"), SubEntry(a, "A")]), TopicEntry(t1, "Topic One", [])])
  }

  lemma ExampleIndex(s: string, t1: string, t2: string, a: string, b: string)
    requires t1 != "" && t2 != "" && a != "" && b != "" && LexLess(t1, t2) && LexLess(a, b)
    ensures ProcessedData(ExampleDoc(s, t1, t2, a, b)) == map[s := map[t2 := [a, b], t1 := []]]
  {
    var two := TopicEntry(t2, "Topic Two", [SubEntry(b, "B"), SubEntry(a, "A")]);
    var one := TopicEntry(t1, "Topic One", []);
    OneSectionIndex(s, [two, one]);
    TopicEntryFacts(t2, "Topic Two", [SubEntry(b, "B"), SubEntry(a, "A")]);
    TopicEntryFacts(t1, "Topic One", []);
    StoredPair(t2, a, b);
    StoredEmpty(t1);
    TwoEntries(two, one);
  }

  /** get_sections and get_topics on the example: the one section, and its topics in ascending order. */
  lemma ExampleSectionsAndTopics(s: string, t1: string, t2: string, a: string, b: string)
    requires t1 != "" && t2 != "" && a != "" && b != "" && LexLess(t1, t2) && LexLess(a, b)
    ensures Sections(ProcessedData(ExampleDoc(s, t1, t2, a, b))) == [s]
    ensures Topics(ProcessedData(ExampleDoc(s, t1, t2, a, b)), s) == [t1, t2]
    ensures forall other :: other != s ==> Topics(ProcessedData(ExampleDoc(s, t1, t2, a, b)), other) == []
  {
    ExampleIndex(s, t1, t2, a, b);
    var index := ProcessedData(ExampleDoc(s, t1, t2, a, b));
    StrictlySortedUnique(Sections(index), [s]);
    StrictlySortedUnique(Topics(index, s), [t1, t2]);
  }

  /** get_sub_topics on the example: `b`, `a` come back as [a, b]; a topic without sub-topics gives []. */
  lemma ExampleSubTopics(s: string, t1: string, t2: string, a: string, b: string)
    requires t1 != "" && t2 != "" && a != "" && b != "" && LexLess(t1, t2) && LexLess(a, b)
    ensures SubTopics(ProcessedData(ExampleDoc(s, t1, t2, a, b)), s, t2) == [a, b]
    ensures SubTopics(ProcessedData(ExampleDoc(s, t1, t2, a, b)), s, t1) == []
  {
    ExampleIndex(s, t1, t2, a, b);
    if LexLe(b, a) {
      LexLeAntisymmetric(a, b);
    }
    SortStringsOfSorted([a, b]);
  }

  /** get_topic_label on the example. */
  lemma ExampleTopicLabel(s: string, t1: string, t2: string, a: string, b: string)
    requires t1 != "" && t2 != ""
    ensures TopicLookupSafe(ExampleDoc(s, t1, t2, a, b), s)
    ensures TopicLabel(ExampleDoc(s, t1, t2, a, b), s, t2) == Some(JStr("Topic Two"))
  {
    var two := TopicEntry(t2, "Topic Two", [SubEntry(b, "B"), SubEntry(a, "A")]);
    var one := TopicEntry(t1, "Topic One", []);
    OneSectionTags(s, [two, one]);
    assert MatchesTopic(two, t2);
  }

  /** The example has no malformed name records on the way to `t2`'s sub-topics. */
  lemma ExampleSubTopicSafe(s: string, t1: string, t2: string, a: string, b: string)
    requires t1 != "" && t2 != ""
    ensures SubTopicLookupSafe(ExampleDoc(s, t1, t2, a, b), s, t2)
  {
    var subs := [SubEntry(b, "B"), SubEntry(a, "A")];
    var two := TopicEntry(t2, "Topic Two", subs);
    var one := TopicEntry(t1, "Topic One", []);
    OneSectionTags(s, [two, one]);
    ExampleTopicLabel(s, t1, t2, a, b);
    TopicEntryFacts(t2, "Topic Two", subs);
    TopicEntryFacts(t1, "Topic One", []);
  }

  /** get_sub_topic_label on the example: the second sub-topic entry of `t2` is found. */
  lemma ExampleSubTopicLabel(s: string, t1: string, t2: string, a: string, b: string)
    requires t1 != "" && t2 != "" && a != "" && b != "" && LexLess(a, b)
    ensures SubTopicLookupSafe(ExampleDoc(s, t1, t2, a, b), s, t2)
    ensures SubTopicLabel(ExampleDoc(s, t1, t2, a, b), s, t2, a) == Some(JStr("A"))
  {
    ExampleSubTopicSafe(s, t1, t2, a, b);
    var subs := [SubEntry(b, "B"), SubEntry(a, "A")];
    var two := TopicEntry(t2, "Topic Two", subs);
    var one := TopicEntry(t1, "Topic One", []);
    OneSectionTags(s, [two, one]);
    TopicEntryFacts(t2, "Topic Two", subs);
    assert MatchesTopic(two, t2);
    assert MatchesSubTopic(subs[1], a) && !MatchesSubTopic(subs[0], a);
    SubTopicsFirstMatch(subs, a, 1);
    assert ScanSubTopicLabel([two, one], t2, a) == Some(JStr("A"));
  }

  /** A storing entry with a single sub-topic entry stores that one value. */
  lemma SingleSubTopic(t: string, x: string)
    requires t != "" && x != ""
    ensures Stores(TopicEntry(t, "T", [SubEntry(x, "X")]))
    ensures SectionTopics([TopicEntry(t, "T", [SubEntry(x, "X")])]) == map[t := [x]]
  {
    var good := TopicEntry(t, "T", [SubEntry(x, "X")]);
    TopicEntryFacts(t, "T", [SubEntry(x, "X")]);
    SubEntryKey(x, "X");
    assert [SubEntry(x, "X")][..0] == [];
    assert SubTopicValues([SubEntry(x, "X")]) == [x];
    assert StoredList(good) == [x];
    assert [good][..0] == [];
  }

  /** The entry without `topic_name` is dropped; the section keeps its one good topic. */
  lemma ResilienceExample(s: string, t: string, x: string, y: string)
    requires t != "" && x != ""
    ensures ProcessedData(OneSection(s, [TopicEntry(t, "T", [SubEntry(x, "X")]),
                                         JObj(map["sub_topics" := JArr([SubEntry(y, "Y")])])])) == map[s := map[t := [x]]]
  {
    var good := TopicEntry(t, "T", [SubEntry(x, "X")]);
    var nameless := JObj(map["sub_topics" := JArr([SubEntry(y, "Y")])]);
    OneSectionIndex(s, [good, nameless]);
    SingleSubTopic(t, x);
    assert TopicKey(nameless) == "";
    assert [good, nameless][..1] == [good];
  }

  /**
    A truthy list root without "question_tags" is answered like a missing
    key: the empty index, and no labels.
   */
  lemma ListRootExample(section: string, t: string, st: string)
    ensures BuildSafe(Some(JArr([JInt(1)]))) && ProcessedData(Some(JArr([JInt(1)]))) == map[]
    ensures TopicLookupSafe(Some(JArr([JInt(1)])), section) && TopicLabel(Some(JArr([JInt(1)])), section, t) == None
    ensures SubTopicLookupSafe(Some(JArr([JInt(1)])), section, t) && SubTopicLabel(Some(JArr([JInt(1)])), section, t, st) == None
  {
    assert !Contains(JArr([JInt(1)]), "question_tags");
  }

  /**
    A list `question_tags` without the section is answered like a missing
    section by the lookups (the builder's `.keys()` would raise on it).
   */
  lemma ListTagsExample(section: string, t: string)
    ensures !BuildSafe(Some(JObj(map["question_tags" := JArr([])])))
    ensures TopicLookupSafe(Some(JObj(map["question_tags" := JArr([])])), section)
    ensures TopicLabel(Some(JObj(map["question_tags" := JArr([])])), section, t) == None
  {
    assert Contains(JObj(map["question_tags" := JArr([])]), "question_tags");
    assert !Contains(JArr([]), section);
  }

  /** Topic `t` twice: first with non-list `sub_topics` and label "Old", then well-formed with label "New". */
  function DroppedDoc(s: string, t: string): Option<Json>
  {
    OneSection(s, [JObj(map["topic_name" := Name(t, "Old"), "sub_topics" := JStr("bad")]), TopicEntry(t, "New", [])])
  }

  /**
    A record the builder drops still answers the label lookup: the first
    record of topic `t` has non-list `sub_topics`, so the index keeps the
    second, but get_topic_label returns the first record's label "Old".
   */
  lemma DroppedRecordLabel(s: string, t: string)
    requires t != ""
    ensures ProcessedData(DroppedDoc(s, t)) == map[s := map[t := []]]
    ensures TopicLookupSafe(DroppedDoc(s, t), s)
    ensures TopicLabel(DroppedDoc(s, t), s, t) == Some(JStr("Old"))
  {
    var bad := JObj(map["topic_name" := Name(t, "Old"), "sub_topics" := JStr("bad")]);
    var good := TopicEntry(t, "New", []);
    OneSectionIndex(s, [bad, good]);
    TopicEntryFacts(t, "New", []);
    assert SubTopicList(bad).None?;
    assert StoredList(good) == [];
    assert [bad, good][..1] == [bad];
    assert [bad][..0] == [];
    assert SectionTopics([bad]) == map[];
    assert SectionTopics([bad, good]) == map[t := []];
    OneSectionTags(s, [bad, good]);
    assert MatchesTopic(bad, t);
  }

  /** Topic `t` twice: first holding `a` with label "A1", then holding `c` and `a` (label "A"). */
  function DuplicateDoc(s: string, t: string, a: string, c: string): Option<Json>
  {
    OneSection(s, [TopicEntry(t, "Topic Two", [SubEntry(a, "A1")]), TopicEntry(t, "Topic Two", [SubEntry(c, "B"), SubEntry(a, "A")])])
  }

  /** The section map of a topic whose later record overwrites an earlier one. */
  lemma DuplicateTopics(t: string, a: string, c: string)
    requires t != "" && a != "" && c != "" && LexLess(a, c)
    ensures SectionTopics([TopicEntry(t, "Topic Two", [SubEntry(a, "A1")]), TopicEntry(t, "Topic Two", [SubEntry(c, "B"), SubEntry(a, "A")])])
              == map[t := [a, c]]
  {
    var first := TopicEntry(t, "Topic Two", [SubEntry(a, "A1")]);
    var second := TopicEntry(t, "Topic Two", [SubEntry(c, "B"), SubEntry(a, "A")]);
    TopicEntryFacts(t, "Topic Two", [SubEntry(a, "A1")]);
    TopicEntryFacts(t, "Topic Two", [SubEntry(c, "B"), SubEntry(a, "A")]);
    SameTopicTwice(first, second);
    StoredPair(t, a, c);
  }

  lemma DuplicateIndex(s: string, t: string, a: string, c: string)
    requires t != "" && a != "" && c != "" && LexLess(a, c)
    ensures ProcessedData(DuplicateDoc(s, t, a, c)) == map[s := map[t := [a, c]]]
  {
    OneSectionIndex(s, [TopicEntry(t, "Topic Two", [SubEntry(a, "A1")]), TopicEntry(t, "Topic Two", [SubEntry(c, "B"), SubEntry(a, "A")])]);
    DuplicateTopics(t, a, c);
  }

  lemma DuplicateSafe(s: string, t: string, a: string, c: string)
    requires t != ""
    ensures SubTopicLookupSafe(DuplicateDoc(s, t, a, c), s, t)
  {
    var first := TopicEntry(t, "Topic Two", [SubEntry(a, "A1")]);
    var second := TopicEntry(t, "Topic Two", [SubEntry(c, "B"), SubEntry(a, "A")]);
    OneSectionTags(s, [first, second]);
    TopicEntryFacts(t, "Topic Two", [SubEntry(a, "A1")]);
    TopicEntryFacts(t, "Topic Two", [SubEntry(c, "B"), SubEntry(a, "A")]);
  }

  /** The index offers the last record's sub-topics [a, c] for `t`. */
  lemma DuplicateSubTopics(s: string, t: string, a: string, c: string)
    requires t != "" && a != "" && c != "" && LexLess(a, c)
    ensures SubTopics(ProcessedData(DuplicateDoc(s, t, a, c)), s, t) == [a, c]
  {
    DuplicateIndex(s, t, a, c);
    if LexLe(c, a) {
      LexLeAntisymmetric(a, c);
    }
    SortStringsOfSorted([a, c]);
  }

  /**
    Two records of topic `t` both hold sub-topic `a`: the index keeps the
    last record's list [a, c] (DuplicateSubTopics), but get_sub_topic_label
    returns the first record's label "A1".
   */
  lemma DuplicateTopicLabel(s: string, t: string, a: string, c: string)
    requires t != ""
    ensures SubTopicLookupSafe(DuplicateDoc(s, t, a, c), s, t)
    ensures SubTopicLabel(DuplicateDoc(s, t, a, c), s, t, a) == Some(JStr("A1"))
  {
    DuplicateSafe(s, t, a, c);
    var first := TopicEntry(t, "Topic Two", [SubEntry(a, "A1")]);
    var second := TopicEntry(t, "Topic Two", [SubEntry(c, "B"), SubEntry(a, "A")]);
    OneSectionTags(s, [first, second]);
    TopicEntryFacts(t, "Topic Two", [SubEntry(a, "A1")]);
    assert MatchesTopic(first, t);
    assert MatchesSubTopic(SubEntry(a, "A1"), a);
    SubTopicsFirstMatch([SubEntry(a, "A1")], a, 0);
    assert ScanSubTopicLabel([first, second], t, a) == Some(JStr("A1"));
  }
}
