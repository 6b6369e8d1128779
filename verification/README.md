# Question-tag taxonomy: index builder and lookups

This project models `json_utils.py` of a question-tagging tool, which is the logic behind three cascading dropdowns (section, topic, sub-topic). The raw tag document is parsed JSON. Its `question_tags` object maps each section value to a list of entries. Each entry has a name record `topic_name` (`value` and `label`) and a list `sub_topics` of `sub_topic_name` records.

- `get_processed_data` turns the document into an index `section -> topic -> sorted list of sub-topic values`. Malformed records are skipped one at a time.
- `get_sections`, `get_topics` and `get_sub_topics` read the index in ascending order. A missing key gives `[]`.
- `get_topic_label` and `get_sub_topic_label` rescan the raw document and return the display label of the first match, or `None`.

Modules:

- `StringOrder` (`string_order.dfy`): Python's ordering of `str`, lexicographic by code point. It provides `sorted` on a list of strings (duplicates kept) and `sorted` on a dictionary's keys.
- `TagDocument` (`tag_document.dfy`): the JSON datatype, Python truthiness and Python's `in` on dictionaries, lists and strings. It also has readers that follow the source's `dict.get` chains with their defaults, and the shape predicates that rule out inputs on which Python raises.
- `TaxonomyIndex` (`taxonomy_index.dfy`):
  - The index as value-level fold functions: `SubTopicValues`, `SectionTopics`, `ProcessedData`.
  - The builder as three methods, one per loop of `get_processed_data`. Each method is proved equal to its fold.
  - Lemmas on which entries survive, how duplicate topics resolve, and sortedness and permutation of the stored lists.
  - The three accessors.
- `LabelLookup` (`label_lookup.dfy`): the two label searches, as recursive first-match scans with lemmas for the first match and for a miss.
- `OfferedLabels` (`offered_labels.dfy`): the dropdowns and the labels together. For every topic and sub-topic the index offers, the label lookup finds a matching record. It answers with the first matching record, which need not be the record the index kept.
- `TaxonomyExample` (`taxonomy_example.dfy`): a worked document over arbitrary strings, and documents with a nameless entry, a list root, a list `question_tags`, a dropped record and a duplicated topic.

The raw document is `Option<Json>`. `None` stands for a failed fetch.

## Model

| member | source | states |
|---|---|---|
| StringOrder.LexLeTotal | json_utils.py:37 | Python's `<=` on strings is total, so `sorted` can always order two strings |
| StringOrder.LexLeTransitive | json_utils.py:37 | Python's `<=` on strings is transitive |
| StringOrder.LexLeAntisymmetric | json_utils.py:37 | two strings each `<=` the other are equal |
| StringOrder.SortStrings | json_utils.py:76 | `sorted` on a list of strings: ascending, same multiset of elements (duplicates kept), same length |
| StringOrder.SortStringsOfSorted | json_utils.py:95 | sorting a list that is already sorted returns it unchanged |
| StringOrder.SortedElements | json_utils.py:83 | `sorted` of a dictionary's keys: strictly ascending, exactly the keys, one entry per key |
| StringOrder.SortedKeyList | json_utils.py:37 | the section keys the builder iterates: strictly ascending, exactly the keys of `question_tags` |
| StringOrder.StrictlySortedUnique | json_utils.py:83 | two strictly ascending lists with the same members are equal, so a sorted key list is determined by its key set |
| TagDocument.LabelOf | json_utils.py:116 | `.get('label')` of a name record: a present non-null label comes back as itself; a missing or JSON-null label comes back as None |
| TagDocument.SubTopicList | json_utils.py:58-61 | `.get('sub_topics', [])`: a missing key gives the empty list; a present value counts as a list exactly when it is a JSON array |
| TagDocument.QuestionTags | json_utils.py:29-33 | a document that is absent or falsy, or that does not contain `question_tags` by Python's `in`, contributes no sections |
| TaxonomyIndex.SubTopicValues | json_utils.py:57-71 | the collected sub-topic values are never empty strings and are no more than the sub-topic entries |
| TaxonomyIndex.SubTopicValuesCount | json_utils.py:63-71 | each non-empty value occurs in the collected list exactly as often as sub-topic entries carry it; non-dictionary entries and empty values contribute nothing |
| TaxonomyIndex.StoredList | json_utils.py:76 | the list stored for a topic is sorted, is a permutation of the collected values, and holds no empty value |
| TaxonomyIndex.CollectedValueSource | json_utils.py:63-71 | every collected value is the value of some sub-topic entry |
| TaxonomyIndex.StoredValueSource | json_utils.py:45-76 | every value stored under a topic comes from an entry the builder stores under that topic |
| TaxonomyIndex.StoredListCount | json_utils.py:57-76 | a stored list is sorted and holds each value as often as the entry's sub-topic records carry it |
| TaxonomyIndex.SectionTopics | json_utils.py:45-76 | no topic key of a section is empty; every stored list is sorted and holds no empty value |
| TaxonomyIndex.ProcessedData | json_utils.py:29-43 | no `question_tags` gives the empty index; the index has exactly the keys of `question_tags`; a section whose value is not a list maps to an empty topic map |
| TaxonomyIndex.CollectSubTopicValues | json_utils.py:57-71 | the sub-topic loop appends, in order, the truthy value of each dictionary sub-topic entry: the list SubTopicValues describes |
| TaxonomyIndex.IndexSectionItems | json_utils.py:45-76 | the entry loop skips non-dictionary entries, entries with a falsy topic value and entries whose `sub_topics` is not a list, and stores (overwriting) the sorted values of the rest: the map SectionTopics describes |
| TaxonomyIndex.GetProcessedData | json_utils.py:22-78 | the section loop over the sorted keys builds exactly ProcessedData of the document |
| TaxonomyIndex.TopicPresentIff | json_utils.py:45-61 | a topic is a key of a section's map iff some entry of the section has that non-empty topic value and a list or missing `sub_topics` |
| TaxonomyIndex.LastEntryWins | json_utils.py:76 | among entries sharing a topic value, the last stored one decides that topic's list |
| TaxonomyIndex.Sections | json_utils.py:81-83 | get_sections: strictly ascending, exactly the index's keys |
| TaxonomyIndex.Topics | json_utils.py:85-89 | get_topics: `[]` for an absent section, otherwise strictly ascending and exactly that section's topic keys |
| TaxonomyIndex.SubTopics | json_utils.py:91-96 | get_sub_topics: `[]` when the section or topic is absent, otherwise a sorted permutation of the stored list |
| TaxonomyIndex.TopicsOfDocument | json_utils.py:45-61 | the topics offered for a section are ascending and are exactly the topic values of its stored entries |
| TaxonomyIndex.SubTopicsOfDocument | json_utils.py:76 | the sub-topics offered for a topic are the stored list of the last entry with that topic value |
| LabelLookup.ScanTopicLabel | json_utils.py:112-117 | a label found by the topic scan is the label of an entry whose topic value matches |
| LabelLookup.TopicLabelFirstMatch | json_utils.py:112-116 | the topic scan returns the label of the first matching entry, even when that label is missing |
| LabelLookup.TopicLabelMiss | json_utils.py:117 | with no matching entry the topic scan returns None |
| LabelLookup.ScanSubTopics | json_utils.py:139-143 | the sub-topic scan of one entry reports no match iff no sub-topic entry matches; a match carries the label of a matching sub-topic entry |
| LabelLookup.SubTopicsFirstMatch | json_utils.py:139-143 | the sub-topic scan of one entry stops at the first matching sub-topic entry |
| LabelLookup.ScanSubTopicLabel | json_utils.py:132-144 | a sub-topic label is found only in an entry that matches the topic, has a list `sub_topics` and has a matching sub-topic entry |
| LabelLookup.SubTopicLabelFirstMatch | json_utils.py:132-143 | the first entry holding the sub-topic decides, and within it the first matching sub-topic entry; earlier matching entries without it, or with non-list `sub_topics`, are passed over |
| LabelLookup.SubTopicLabelMiss | json_utils.py:144 | when no entry holds the sub-topic the result is None |
| LabelLookup.FirstTopicMatch | json_utils.py:112-116 | where some entry matches the topic there is a first one, at or before it |
| LabelLookup.FirstSubTopicMatch | json_utils.py:139-143 | where some sub-topic entry matches there is a first one, at or before it |
| LabelLookup.FirstHoldingEntry | json_utils.py:132-143 | where some entry holds the sub-topic there is a first one, at or before it |
| LabelLookup.FirstHeldSubTopic | json_utils.py:132-143 | where some entry holds the sub-topic, the scan returns the label of the first matching sub-topic entry of the first entry holding it |
| LabelLookup.TopicLabel | json_utils.py:99-117 | get_topic_label: None without `question_tags`, for an absent section or one that is not a list; otherwise the topic scan of the section; a result is never JSON null and is the label of a matching entry |
| LabelLookup.SubTopicLabel | json_utils.py:119-144 | get_sub_topic_label: None in the same miss cases; otherwise the sub-topic scan of the section; a result comes from an entry holding the sub-topic |
| OfferedLabels.OfferedSection | json_utils.py:37-45 | a section with an offered topic is a list in the document, and the topic is a key of its topic map |
| OfferedLabels.OfferedTopicLabel | json_utils.py:99-117 | for every topic get_topics offers, get_topic_label returns the label of the first entry whose topic value matches |
| OfferedLabels.OfferedSubTopicHeld | json_utils.py:132-143 | every sub-topic get_sub_topics offers is held by an entry of the section that matches the topic and has a list `sub_topics` |
| OfferedLabels.OfferedSubTopicLabel | json_utils.py:119-144 | for every sub-topic get_sub_topics offers, get_sub_topic_label returns the label of the first matching sub-topic entry of the first entry holding it |
| TaxonomyExample.ExampleSectionsAndTopics | json_utils.py:81-89 | on the worked document: one section, its topics `[t1, t2]` in ascending order although listed `t2` first, and `[]` for any other section |
| TaxonomyExample.ExampleSubTopics | json_utils.py:91-96 | on the worked document: sub-topics listed `b`, `a` come back as `[a, b]`; a topic with no sub-topics gives `[]` |
| TaxonomyExample.ExampleTopicLabel | json_utils.py:99-117 | on the worked document the label of `t2` is found |
| TaxonomyExample.ExampleSubTopicLabel | json_utils.py:119-144 | on the worked document the label of sub-topic `a` of `t2` is found in the second sub-topic entry |
| TaxonomyExample.ResilienceExample | json_utils.py:50-55 | an entry without `topic_name` is dropped and its sibling is indexed unchanged |
| TaxonomyExample.ListRootExample | json_utils.py:29-31 | a truthy list root without "question_tags" is accepted: the index is empty and both lookups return None |
| TaxonomyExample.ListTagsExample | json_utils.py:104-106 | a list `question_tags` without the section is accepted by get_topic_label, which returns None; the builder excludes it |
| TaxonomyExample.DroppedRecordLabel | json_utils.py:59-61 | a record with non-list `sub_topics` is dropped from the index, yet get_topic_label returns its label because it matches first |
| TaxonomyExample.DuplicateSubTopics | json_utils.py:76 | of two records for one topic, the index offers the last record's sub-topics |
| TaxonomyExample.DuplicateTopicLabel | json_utils.py:132-143 | of two records for one topic that both hold a sub-topic, get_sub_topic_label returns the first record's label |

## Left out

- `fetch_and_parse_json_from_url` (json_utils.py:6-20) is network I/O through `requests` plus JSON decoding. Its result is modelled only as the `Option<Json>` input.
- `main.py` is Streamlit page layout and is not part of this model.
- The `print` diagnostics (json_utils.py:16, 19, 30) are side effects only.
- The builder fills `updated_data` and `subtopics_values` in place. Each loop is a method over map and sequence values proved equal to a fold. Nothing is aliased, so nothing about sharing is lost.
- Inputs on which Python raises are excluded by preconditions; the exceptions are not modelled. These inputs are:
  - a truthy root on which `in` is not defined (a number or `true`), or a list or string root that contains "question_tags" (the following `.get` raises); a list or string root without it is modelled and answered with `{}` or None;
  - in the builder, a `question_tags` that is not a dictionary (`.keys()` raises);
  - in the lookups, a `question_tags` on which `in` is not defined, or a list or string one that contains the section; a list or string one without the section is modelled and answered with None;
  - a present `topic_name` or `sub_topic_name` that is not a dictionary;
  - in the builder, a truthy `value` that is not a string.
- TaxonomyIndex.GetProcessedData: its precondition also excludes a truthy non-string value that Python would not reject on its own, for example a lone integer sub-topic value in a list that `sorted` accepts. The model keeps keys and values as strings.
- LabelLookup.TopicLabel: requires every entry of the section to have a dictionary `topic_name` when present. Python raises only on a malformed entry that it reaches before the first match.
- LabelLookup.SubTopicLabel: requires the same of the section's entries. It also requires a dictionary `sub_topic_name` in every sub-topic entry of every matching entry, not only in those the scan reaches.
- JSON floats are not modelled. Truthiness is modelled for null, booleans, integers, strings, arrays and objects.
- The lookup keys are strings. A `None` key, as an empty dropdown would pass, is not modelled.
- A JSON `null` label and a missing label both read as None, as they do in Python.
- Idempotence of the builder needs no lemma: two runs of `GetProcessedData` on one document give equal indexes, because its `ensures` fixes the result as `ProcessedData(raw)`.
