# One-hot encoding of request models

A model of `PydanticOneHotEncoder` (app/classifiers/preprocess.py). This encoder turns instances of a request schema into a table of 0/1 features with fixed columns. It works in three steps:

- **Classifying the schema's fields** (`_get_enum_fields`). Each field is judged by the first argument of its annotation, `annotation.__args__[0]`:
  - when that argument is a list of an enumeration, as in `Optional[list[E]]`, the field is *multi-label*;
  - when it is an enumeration, as in `Optional[E]`, the field is *single-label*;
  - every other field is dropped.
- **Deriving the column list once, at construction** (`_get_all_columns`): one column `field_member` per (field, member) pair. Multi-label pairs come first. Fields keep declaration order and members keep enumeration order.
- **Encoding a batch** (`transform`):
  - Each instance is turned into a dict. For every multi-label field, each member of its enumeration becomes a key whose value says whether the member is in the instance's list. For every single-label field, each member becomes a key whose value says whether the field's value equals the member.
  - The dicts become a DataFrame, and its columns are relabelled by position with the fixed column list.

Modules, one per file:

- `Sequences` (sequences.dfy):
  - `Distinct`;
  - `AddNew`, the key list a Python dict ends up with after a run of assignments.
- `OrderedDict` (ordered_dict.dfy): Python's insertion-ordered dict as a sequence of entries.
  - `Put` is `d[k] = v`: an existing key is overwritten in place, a new key is appended.
  - `PutAll` is `update` or a loop of assignments.
- `Schema` (schema.dfy): the schema as a list of field descriptors. Each field has a name and the first argument of its annotation, which is a list of a class or a class. A class is an enumeration with its members, or some other class. An enumeration's members are `list(E)`, which skips aliases, so the type `Members` admits no repeated value. That constraint is the recursive `NoRepeats`, and `NoRepeatsDistinct` proves it agrees with `Distinct`. The file also holds the classification pass.
- `Columns` (columns.dfy): the column list, and the `Layout`, which is the (field, member, multi-label?) triple behind every position.
- `Binarizer` (binarizer.dfy): `MultiLabelBinarizer(classes=…)` used on one sample, as the library computes it.
  - It maps each class to its column.
  - It collects the columns of the sample's labels, setting unknown labels aside.
  - It writes a dense row with 1 in the collected columns.

  `FitTransformIndicator` proves that this row is the membership indicator of each class. `Encoding` states a field's entries with those indicators. `PydanticOneHotEncoder.EncodeField` calls the binarizer and uses `FitTransformIndicator` to show that the two agree.
- `Encoding` (encoding.dfy): `transform` stated as functions.
  - `EncodeRow` gives the dict of one instance.
  - `EncodeRows` gives all of them.
  - `Frame` is `pd.DataFrame(rows)` followed by `df.columns = …`.
  - `EncodeBatch` is the whole `transform`.
  - `Cell` and `Tabulates` are an independent reference definition of what every cell of the result means.
- `Preprocess` (preprocess.dfy): the class `PydanticOneHotEncoder`.
  - Its constructor fixes the classified fields, the binarizers and the column list.
  - Its methods run the loops of `transform` over the dicts they update. Each method is proved equal to the specification function.

Failures are modelled, not excluded. `transform` returns `Err(NotIterable(field))` when a multi-label field holds None, since the binarizer iterates the value and Python raises a TypeError. It returns `Err(LengthMismatch(expected, actual))` when relabelling finds a different number of columns, which is a ValueError in pandas. This happens when:
- the batch is empty and the column list is not;
- two intermediate keys coincide.

`EncodeBatchOutcome` characterises exactly when neither failure happens.

## Model

| member | source | states |
|---|---|---|
| Schema.GetEnumFields | app/classifiers/preprocess.py:19-35 | The loop over the declared fields returns exactly the multi-label fields and the single-label fields of the schema, each group in declaration order and each with its enumeration's full member list |
| Schema.GroupsAppend | app/classifiers/preprocess.py:24-33 | Classification is field by field: classifying a concatenation of field lists concatenates the groups |
| Schema.MultiLabelMembership | app/classifiers/preprocess.py:26-31 | A field is in the multi-label group with members `ms` if and only if the first argument of its annotation is a list of an enumeration with members `ms` |
| Schema.SingleLabelMembership | app/classifiers/preprocess.py:32-33 | A field is in the single-label group with members `ms` if and only if the first argument of its annotation is an enumeration with members `ms` |
| Schema.GroupsDisjoint | app/classifiers/preprocess.py:26-33 | With distinct field names, no field is in both groups |
| Schema.OtherFieldsDropped | app/classifiers/preprocess.py:26-33 | With distinct field names, a field whose annotation's first argument is neither an enumeration nor a list of one is in neither group |
| Schema.NoRepeatsDistinct | app/classifiers/preprocess.py:13 | The member-by-member statement that an enumeration has no repeated value holds exactly when no two positions hold the same value |
| Columns.GroupColumnsLength | app/classifiers/preprocess.py:39-43 | A group contributes one column per member of each of its fields |
| Columns.GroupColumnsLayout | app/classifiers/preprocess.py:39-43 | The columns of a group are `field_member` for each field in order and each member in enumeration order |
| Columns.AllColumnsLayout | app/classifiers/preprocess.py:37-49 | The column list has one name per (field, member) pair of the layout, `field_member` at each position. Its length is the total enumeration size of both groups, and the multi-label positions come first |
| Columns.SlotPosition | app/classifiers/preprocess.py:39-47 | Member `j` of field `i` of a group sits at position `MemberCount(fields before i) + j` |
| Columns.FieldOffset | app/classifiers/preprocess.py:44-48 | The block of field `i` fits inside its group |
| Binarizer.ClassToIndexSpec | app/classifiers/preprocess.py:13 | The class-to-column map built from the classes knows exactly the classes, and sends each class to the last column that holds it |
| Binarizer.DenseRowSpec | app/classifiers/preprocess.py:62 | The dense row of a sample has one cell per class, 1 in the collected columns and 0 elsewhere |
| Binarizer.LabelIndicesSpec | app/classifiers/preprocess.py:62 | The columns collected for a sample are exactly those some label is mapped to |
| Binarizer.FitTransformIndicator | app/classifiers/preprocess.py:62 | Over classes without repeats, the dense row computed through the map and the collected columns has one cell per class. A cell is 1 exactly when the class is among the labels, and 0 exactly when it is not |
| Binarizer.LabelOrderIrrelevant | app/classifiers/preprocess.py:62 | Only which classes occur among the labels matters, not their order or repetitions |
| Binarizer.UnknownLabelIgnored | app/classifiers/preprocess.py:62 | A label outside the classes changes nothing |
| OrderedDict.PutKeys | app/classifiers/preprocess.py:70 | Assigning a key keeps the key list when the key is present and appends the key otherwise |
| OrderedDict.PutAllKeys | app/classifiers/preprocess.py:63 | After a run of assignments, the keys are the old ones followed by each new key in order of first assignment |
| OrderedDict.PutAllAppend | app/classifiers/preprocess.py:63 | Assigning `a` and then `b` is assigning `a + b` |
| OrderedDict.PutAllFresh | app/classifiers/preprocess.py:63 | Without repeated keys, assignments append their entries |
| OrderedDict.LookupAt | app/classifiers/preprocess.py:74 | In a dict without repeated keys, the key at position `k` finds that entry's value |
| Sequences.AddNewLength | app/classifiers/preprocess.py:74-75 | A run of assignments loses no key exactly when the assigned keys are pairwise distinct, and then they are kept in order |
| Encoding.MultiEntriesSpec | app/classifiers/preprocess.py:60-63 | The multi-label entries exist if and only if every multi-label field is absent or a list. They then hold, per field and member in order, whether the member is listed. Otherwise the error names a field holding a non-list |
| Encoding.SingleEntriesSpec | app/classifiers/preprocess.py:65-70 | The single-label entries hold, per field and member in order, whether the field's value is that member |
| Encoding.EncodeRowSpec | app/classifiers/preprocess.py:55-72 | An instance's dict exists if and only if its multi-label fields can be iterated. Its keys are the bare keys with repeats dropped. With distinct bare keys it holds exactly one entry per layout slot, valued by `Cell` |
| Encoding.EncodeRowKeys | app/classifiers/preprocess.py:72-74 | All dicts of a batch have the same keys, so the frame's header is the first dict's keys |
| Encoding.EncodeRowsSpec | app/classifiers/preprocess.py:53-72 | One dict per instance in input order, or the failure of some instance |
| Encoding.EncodeRowsOk | app/classifiers/preprocess.py:55-63 | The dicts can all be built if and only if no instance holds a non-list in a multi-label field |
| Encoding.EncodeBatchOutcome | app/classifiers/preprocess.py:51-76 | `transform` succeeds if and only if every multi-label value can be iterated and, in addition, either the batch is non-empty and the bare keys are pairwise distinct, or the batch and the column list are both empty |
| Encoding.EncodeBatchErrors | app/classifiers/preprocess.py:60-63 | A NotIterable failure names a multi-label field that some instance holds as a non-list. A LengthMismatch expects the column list's length and finds fewer columns |
| Encoding.BareKeysWidth | app/classifiers/preprocess.py:63-75 | A dict has as many keys as there are columns exactly when the bare keys are pairwise distinct, and fewer otherwise |
| Encoding.FrameLookup | app/classifiers/preprocess.py:74-75 | When all dicts share duplicate-free keys as many as the columns, cell `k` of row `i` is the value of that dict's k-th entry |
| Encoding.BatchRows | app/classifiers/preprocess.py:53-74 | A successful non-empty batch has distinct bare keys and one dict per instance, each the expected one |
| Encoding.EncodeBatchCells | app/classifiers/preprocess.py:51-76 | A successful `transform` has exactly the fixed column list and one row per instance in input order. Each row is as wide as the column list, and the cell under `field_member` is the indicator of that pair |
| Encoding.EncodeBatchBinary | app/classifiers/preprocess.py:62-70 | Every cell of a successful `transform` is 0 or 1 |
| Encoding.MultiLabelCell | app/classifiers/preprocess.py:60-63 | The cell of member `j` of multi-label field `fi` is under column `field_member` at position `MemberCount(multi[..fi]) + j`. It is 1 exactly when the member is in the instance's list, and 0 otherwise, so an absent field gives 0 |
| Encoding.SingleLabelOneHot | app/classifiers/preprocess.py:66-70 | The block of a single-label field is under `field_member` for its members in order, and a cell is 1 exactly when the field's value is that member. Since an enumeration has no repeated value, the block holds exactly one 1 when the value is a member and none otherwise |
| Encoding.MatchBitsOneHot | app/classifiers/preprocess.py:69-70 | The equality indicators over an enumeration without repeats hold exactly one 1 when the value is a member and none otherwise |
| Encoding.SharedMemberFails | app/classifiers/preprocess.py:66-75 | Two single-label fields `status: [a, b]` and `level: [a, c]`, with members keyed by their value, give rows with 3 keys against 4 columns, and `transform` fails with `LengthMismatch(4, 3)` |
| Preprocess.PydanticOneHotEncoder.constructor | app/classifiers/preprocess.py:10-17 | The fields, the binarizers and the column list are functions of the schema alone |
| Preprocess.PydanticOneHotEncoder.EncodeInstance | app/classifiers/preprocess.py:56-72 | One pass of `transform`'s loop builds the instance's dict given by `EncodeRow`, or its failure |
| Preprocess.PydanticOneHotEncoder.EncodeMultiLabel | app/classifiers/preprocess.py:60-63 | The loop over the binarizers assigns all multi-label entries in order into an empty dict, or stops at the first field holding a non-list |
| Preprocess.PydanticOneHotEncoder.EncodeField | app/classifiers/preprocess.py:60-63 | One pass of the multi-label loop: `data.get(field, [])` is binarized and zipped with the classes, giving exactly the field's entries from `MultiFieldEntries`. A field holding a non-list fails with `NotIterable` |
| Preprocess.PydanticOneHotEncoder.AssignSingleFields | app/classifiers/preprocess.py:66-70 | The loop over the single-label fields assigns all their entries in order |
| Preprocess.PydanticOneHotEncoder.AssignSingleField | app/classifiers/preprocess.py:67-70 | The loop over one field's members assigns `1 if member == value else 0` under each bare member in order |
| Preprocess.PydanticOneHotEncoder.Transform | app/classifiers/preprocess.py:51-76 | `transform` returns `EncodeBatch`. On success its columns are the list fixed at construction, whatever the batch, with one row per instance, each as wide as the column list |

## Left out

- Pydantic introspection is not modelled: `__pydantic_fields__`, `annotation.__args__[0]` and `__origin__`. The schema is given as field descriptors that carry the first argument of each annotation. An annotation without arguments is not modelled, and neither is the TypeError that `issubclass` raises on a non-class.
- Enumeration members are modelled as their string values. `e.value` at :40 and :45 and the comparison `class_value == value` at :70 are taken to be on that value.
- Encoding.EncodeBatchOutcome: its success condition predicts a failure wherever two fields share a member value. That is the source's behaviour only when members are `str`-valued and `f"{class_value}"` spells their value, as for the repository's own `(str, Enum)` classes on Python versions that format such members by value. The source builds two kinds of intermediate key:
  - the keys written at :63 are the members themselves (`mlb.classes_`);
  - the keys written at :70 are the text `f"{class_value}"`.

  A plain `Enum` member equals neither a string nor a member of another enumeration. So with plain enumerations the source keeps such keys apart, and `transform` succeeds where the model returns `LengthMismatch`. The model also does not capture a plain member whose `f"{class_value}"` is `Class.name` rather than its value.
- `model_dump()` is a parameter: an instance is a map from field name to a list of members, one member, or None.
- A single-label field whose value is a list, for example a field annotated `list[E]`, is encoded as the source encodes it: `class_value == value` is false for every member, and `Cell` gives 0 for each of them.
- Encoding.MultiFieldEntries: a multi-label field that holds one member gives `NotIterable`. The source raises the same TypeError for a plain `Enum` member. A `str`-valued member, however, is iterated character by character and its characters are binarized; the model does not capture that.
- scikit-learn is modelled only through `fit_transform` on one sample: the class-to-column map, the collected columns and the dense row.
  - The binarizer's check for duplicate classes is not modelled. It cannot fire here, because an enumeration's members have distinct values.
  - Neither its warning on unknown labels nor its numpy result types are modelled.
- pandas is left out except for two behaviours:
  - the header of a frame built from dicts is the first dict's keys;
  - positional relabelling fails on a length mismatch.

  Neither the index nor dtypes are modelled. A key missing from a dict would give NaN. `Lookup` gives 0 instead, but that case cannot arise because all dicts share the same keys (`EncodeRowKeys`).
- app/main.py and app/models/__init__.py are not part of this model. They hold HTTP routing, the classifier call and a one-case schema lookup.

Where the code departs from what its docstrings or a reader would expect, the model follows the code:

- The docstring at :20 names multi-label fields `List[Enum]` and single-label fields `Enum`.
  - The code classifies by the annotation's first argument (:25).
  - A field annotated `list[E]` or `List[E]` has first argument `E`, so :32-33 make it single-label. Only a wrapped annotation such as `Optional[list[E]]` makes it multi-label.
  - The model classifies by that first argument (`MultiLabelMembership`, `SingleLabelMembership`).
- A reader might expect one output column per single-label member even when two single-label fields share a member.
  - The final column names are prefixed `field_member` (:44-48), but the dict entries at :70 are keyed by the bare member, so the second field overwrites the first.
  - The dicts then have fewer keys than the column list, and relabelling at :75 raises.
  - `SharedMemberFails` shows this for `status: [a, b]` and `level: [a, c]`. `EncodeBatchOutcome` states the general condition, within the limits of the `Encoding.EncodeBatchOutcome` line above.
- A reader might expect a multi-label field that holds None to count as an empty list.
  - `data.get(field, [])` (:61) supplies the empty list only when the key is absent.
  - A field that holds None is passed to the binarizer, which iterates it and raises. The model returns `NotIterable` for it.
- An empty batch gives a frame without columns, so `transform` fails on it unless the column list is empty. An enumeration field with no members adds no columns. The model returns `LengthMismatch(n, 0)` in that case.
