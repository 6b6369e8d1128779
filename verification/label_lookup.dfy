/**
  The label lookups of json_utils.py: `get_topic_label` and
  `get_sub_topic_label` recover the display label of a topic or sub-topic
  by scanning the raw document in order, returning at the first match.
 */
module LabelLookup {
  import opened TagDocument

  /** A dictionary entry whose `topic_name.value` equals `t` (json_utils.py:113-115). */
  predicate MatchesTopic(item: Json, t: string)
  {
    item.JObj? && NameValue(item, "topic_name") == Some(JStr(t))
  }

  /** A dictionary sub-topic entry whose `sub_topic_name.value` equals `st` (json_utils.py:140-142). */
  predicate MatchesSubTopic(sub: Json, st: string)
  {
    sub.JObj? && NameValue(sub, "sub_topic_name") == Some(JStr(st))
  }

  /** The outcome of scanning one topic's sub-topic list: a match (whose label may be None) or none. */
  datatype Search = Found(labelValue: Option<Json>) | NotFound

  /** The loop of get_topic_label (json_utils.py:112-117): the first match decides. */
  function ScanTopicLabel(items: seq<Json>, t: string): (r: Option<Json>)
    ensures r.Some? ==> exists k :: 0 <= k < |items| && MatchesTopic(items[k], t) && r == LabelOf(items[k], "topic_name")
  {
    if items == [] then None
    else if MatchesTopic(items[0], t) then LabelOf(items[0], "topic_name")
    else
      var r := ScanTopicLabel(items[1..], t);
      assert r.Some? ==> exists k :: 0 <= k < |items[1..]| && MatchesTopic(items[1..][k], t) && r == LabelOf(items[1..][k], "topic_name");
      assert forall k :: 0 <= k < |items[1..]| ==> items[1..][k] == items[k + 1];
      r
  }

  /** The inner loop of get_sub_topic_label (json_utils.py:139-143). */
  function ScanSubTopics(subs: seq<Json>, st: string): (r: Search)
    ensures r.NotFound? <==> forall j :: 0 <= j < |subs| ==> !MatchesSubTopic(subs[j], st)
    ensures r.Found? ==> exists j :: 0 <= j < |subs| && MatchesSubTopic(subs[j], st) && r.labelValue == LabelOf(subs[j], "sub_topic_name")
  {
    if subs == [] then NotFound
    else if MatchesSubTopic(subs[0], st) then Found(LabelOf(subs[0], "sub_topic_name"))
    else
      var r := ScanSubTopics(subs[1..], st);
      assert forall j :: 0 <= j < |subs[1..]| ==> subs[1..][j] == subs[j + 1];
      r
  }

  /** An entry in which get_sub_topic_label finds the sub-topic: matching topic, list `sub_topics`, matching item. */
  predicate HasSubTopicMatch(item: Json, t: string, st: string)
  {
    && MatchesTopic(item, t)
    && SubTopicList(item).Some?
    && exists j :: 0 <= j < |SubTopicList(item).value| && MatchesSubTopic(SubTopicList(item).value[j], st)
  }

  /**
    The outer loop of get_sub_topic_label (json_utils.py:132-144): matching
    entries whose `sub_topics` is not a list are skipped and the scan goes on.
   */
  function ScanSubTopicLabel(items: seq<Json>, t: string, st: string): (r: Option<Json>)
    ensures r.Some? ==> exists k :: 0 <= k < |items| && HasSubTopicMatch(items[k], t, st)
  {
    if items == [] then None
    else
      var found := if MatchesTopic(items[0], t) && SubTopicList(items[0]).Some?
                   then ScanSubTopics(SubTopicList(items[0]).value, st) else NotFound;
      if found.Found? then
        assert HasSubTopicMatch(items[0], t, st);
        found.labelValue
      else
        var r := ScanSubTopicLabel(items[1..], t, st);
        assert forall k :: 0 <= k < |items[1..]| ==> items[1..][k] == items[k + 1];
        r
  }

  // ----- The scans are first-match searches -----

  /** get_topic_label answers with the label of the first matching entry, even a missing one. */
  lemma {:induction false} TopicLabelFirstMatch(items: seq<Json>, t: string, k: nat)
    requires k < |items| && MatchesTopic(items[k], t)
    requires forall k' :: 0 <= k' < k ==> !MatchesTopic(items[k'], t)
    ensures ScanTopicLabel(items, t) == LabelOf(items[k], "topic_name")
  {
    if k > 0 {
      assert !MatchesTopic(items[0], t);
      TopicLabelFirstMatch(items[1..], t, k - 1);
    }
  }

  /** Without a matching entry get_topic_label answers None (by ScanTopicLabel's contract). */
  lemma TopicLabelMiss(items: seq<Json>, t: string)
    requires forall k :: 0 <= k < |items| ==> !MatchesTopic(items[k], t)
    ensures ScanTopicLabel(items, t) == None
  {
  }

  /** The sub-topic scan answers with the first matching sub-topic entry. */
  lemma {:induction false} SubTopicsFirstMatch(subs: seq<Json>, st: string, j: nat)
    requires j < |subs| && MatchesSubTopic(subs[j], st)
    requires forall j' :: 0 <= j' < j ==> !MatchesSubTopic(subs[j'], st)
    ensures ScanSubTopics(subs, st) == Found(LabelOf(subs[j], "sub_topic_name"))
  {
    if j > 0 {
      assert !MatchesSubTopic(subs[0], st);
      SubTopicsFirstMatch(subs[1..], st, j - 1);
    }
  }

  /**
    get_sub_topic_label answers with the label of the first matching
    sub-topic (in list order) of the first entry that has one.
   */
  lemma {:induction false} SubTopicLabelFirstMatch(items: seq<Json>, t: string, st: string, k: nat, j: nat)
    requires k < |items| && MatchesTopic(items[k], t) && SubTopicList(items[k]).Some?
    requires forall k' :: 0 <= k' < k ==> !HasSubTopicMatch(items[k'], t, st)
    requires j < |SubTopicList(items[k]).value| && MatchesSubTopic(SubTopicList(items[k]).value[j], st)
    requires forall j' :: 0 <= j' < j ==> !MatchesSubTopic(SubTopicList(items[k]).value[j'], st)
    ensures ScanSubTopicLabel(items, t, st) == LabelOf(SubTopicList(items[k]).value[j], "sub_topic_name")
  {
    if k == 0 {
      SubTopicsFirstMatch(SubTopicList(items[0]).value, st, j);
    } else {
      assert !HasSubTopicMatch(items[0], t, st);
      SubTopicLabelFirstMatch(items[1..], t, st, k - 1, j);
    }
  }

  /** When no entry has a matching sub-topic, get_sub_topic_label answers None (by ScanSubTopicLabel's contract). */
  lemma SubTopicLabelMiss(items: seq<Json>, t: string, st: string)
    requires forall k :: 0 <= k < |items| ==> !HasSubTopicMatch(items[k], t, st)
    ensures ScanSubTopicLabel(items, t, st) == None
  {
  }

  /** Where some entry matches the topic, there is a first one. */
  lemma {:induction false} FirstTopicMatch(items: seq<Json>, t: string, k: nat) returns (k0: nat)
    requires k < |items| && MatchesTopic(items[k], t)
    ensures k0 <= k && MatchesTopic(items[k0], t)
    ensures forall k' :: 0 <= k' < k0 ==> !MatchesTopic(items[k'], t)
    decreases k
  {
    if exists k' :: 0 <= k' < k && MatchesTopic(items[k'], t) {
      var k' :| 0 <= k' < k && MatchesTopic(items[k'], t);
      k0 := FirstTopicMatch(items, t, k');
    } else {
      k0 := k;
    }
  }

  /** Where some sub-topic entry matches, there is a first one. */
  lemma {:induction false} FirstSubTopicMatch(subs: seq<Json>, st: string, j: nat) returns (j0: nat)
    requires j < |subs| && MatchesSubTopic(subs[j], st)
    ensures j0 <= j && MatchesSubTopic(subs[j0], st)
    ensures forall j' :: 0 <= j' < j0 ==> !MatchesSubTopic(subs[j'], st)
    decreases j
  {
    if exists j' :: 0 <= j' < j && MatchesSubTopic(subs[j'], st) {
      var j' :| 0 <= j' < j && MatchesSubTopic(subs[j'], st);
      j0 := FirstSubTopicMatch(subs, st, j');
    } else {
      j0 := j;
    }
  }

  /** Where some entry holds the sub-topic, there is a first one. */
  lemma {:induction false} FirstHoldingEntry(items: seq<Json>, t: string, st: string, k: nat) returns (k0: nat)
    requires k < |items| && HasSubTopicMatch(items[k], t, st)
    ensures k0 <= k && HasSubTopicMatch(items[k0], t, st)
    ensures forall k' :: 0 <= k' < k0 ==> !HasSubTopicMatch(items[k'], t, st)
    decreases k
  {
    if exists k' :: 0 <= k' < k && HasSubTopicMatch(items[k'], t, st) {
      var k' :| 0 <= k' < k && HasSubTopicMatch(items[k'], t, st);
      k0 := FirstHoldingEntry(items, t, st, k');
    } else {
      k0 := k;
    }
  }

  /**
    Where some entry holds the sub-topic, the sub-topic scan answers with the
    first matching sub-topic entry of the first entry that holds it.
   */
  lemma FirstHeldSubTopic(items: seq<Json>, t: string, st: string, k: nat) returns (k0: nat, j0: nat)
    requires k < |items| && HasSubTopicMatch(items[k], t, st)
    ensures k0 < |items| && HasSubTopicMatch(items[k0], t, st)
    ensures forall k' :: 0 <= k' < k0 ==> !HasSubTopicMatch(items[k'], t, st)
    ensures j0 < |SubTopicList(items[k0]).value| && MatchesSubTopic(SubTopicList(items[k0]).value[j0], st)
    ensures forall j' :: 0 <= j' < j0 ==> !MatchesSubTopic(SubTopicList(items[k0]).value[j'], st)
    ensures ScanSubTopicLabel(items, t, st) == LabelOf(SubTopicList(items[k0]).value[j0], "sub_topic_name")
  {
    k0 := FirstHoldingEntry(items, t, st, k);
    var subs := SubTopicList(items[k0]).value;
    var j :| 0 <= j < |subs| && MatchesSubTopic(subs[j], st);
    j0 := FirstSubTopicMatch(subs, st, j);
    SubTopicLabelFirstMatch(items, t, st, k0, j0);
  }

  // ----- The lookups over the raw document -----

  /**
    The membership tests on the root and on `question_tags` are defined and
    do not lead to a `.get` on a list or string (json_utils.py:101-108), and
    the entries of `section` have a dictionary `topic_name` whenever they
    have one at all, so `.get('value')` does not raise (json_utils.py:114).
   */
  predicate TopicLookupSafe(raw: Option<Json>, section: string)
  {
    && SectionTagsShaped(raw, section)
    && (section in QuestionTags(raw) && QuestionTags(raw)[section].JArr? ==>
          forall item :: item in QuestionTags(raw)[section].items ==> NameShaped(item, "topic_name"))
  }

  /**
    As TopicLookupSafe, and in every entry matching `t` with a list
    `sub_topics`, the sub-topic entries have a dictionary `sub_topic_name`
    whenever they have one (json_utils.py:141).
   */
  predicate SubTopicLookupSafe(raw: Option<Json>, section: string, t: string)
  {
    && TopicLookupSafe(raw, section)
    && (section in QuestionTags(raw) && QuestionTags(raw)[section].JArr? ==>
          forall item :: item in QuestionTags(raw)[section].items && MatchesTopic(item, t) && SubTopicList(item).Some? ==>
            forall sub :: sub in SubTopicList(item).value ==> NameShaped(sub, "sub_topic_name"))
  }

  /**
    get_topic_label (json_utils.py:99-117): None without `question_tags`,
    for an unknown section, for a section that is not a list, and when no
    entry matches; otherwise the label of a matching entry.
   */
  function TopicLabel(raw: Option<Json>, section: string, topic: string): (r: Option<Json>)
    requires TopicLookupSafe(raw, section)
    ensures section !in QuestionTags(raw) ==> r == None
    ensures section in QuestionTags(raw) && !QuestionTags(raw)[section].JArr? ==> r == None
    ensures section in QuestionTags(raw) && QuestionTags(raw)[section].JArr? ==>
              r == ScanTopicLabel(QuestionTags(raw)[section].items, topic)
    ensures r.Some? ==> r.value != JNull
    ensures r.Some? ==>
              var items := QuestionTags(raw)[section].items;
              exists k :: 0 <= k < |items| && MatchesTopic(items[k], topic) && r == LabelOf(items[k], "topic_name")
  {
    if raw.None? || !Truthy(raw.value) || !Contains(raw.value, "question_tags") then None
    else
      var questionTagsData := raw.value.fields["question_tags"];
      if !Contains(questionTagsData, section) then None
      else
        var sectionItems := questionTagsData.fields[section];
        if !sectionItems.JArr? then None
        else ScanTopicLabel(sectionItems.items, topic)
  }

  /**
    get_sub_topic_label (json_utils.py:119-144): None in the same miss cases
    as get_topic_label and when no matching entry holds the sub-topic;
    otherwise the label of a matching sub-topic of a matching entry.
   */
  function SubTopicLabel(raw: Option<Json>, section: string, topic: string, subTopic: string): (r: Option<Json>)
    requires SubTopicLookupSafe(raw, section, topic)
    ensures section !in QuestionTags(raw) ==> r == None
    ensures section in QuestionTags(raw) && !QuestionTags(raw)[section].JArr? ==> r == None
    ensures section in QuestionTags(raw) && QuestionTags(raw)[section].JArr? ==>
              r == ScanSubTopicLabel(QuestionTags(raw)[section].items, topic, subTopic)
    ensures r.Some? ==>
              var items := QuestionTags(raw)[section].items;
              exists k :: 0 <= k < |items| && HasSubTopicMatch(items[k], topic, subTopic)
  {
    if raw.None? || !Truthy(raw.value) || !Contains(raw.value, "question_tags") then None
    else
      var questionTagsData := raw.value.fields["question_tags"];
      if !Contains(questionTagsData, section) then None
      else
        var sectionItems := questionTagsData.fields[section];
        if !sectionItems.JArr? then None
        else ScanSubTopicLabel(sectionItems.items, topic, subTopic)
  }
}
