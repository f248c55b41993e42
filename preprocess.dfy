/** `PydanticOneHotEncoder`: classifies a request model's fields once, at construction, and
    then encodes batches of instances of that model into a fixed-column 0/1 table. */
module Preprocess {
  import opened Schema
  import opened Columns
  import opened OrderedDict
  import opened Binarizer
  import opened Encoding

  /** `{field: MultiLabelBinarizer(classes=[e for e in enums]) for field, enums in multi.items()}`. */
  function Encoders(multi: seq<EnumField>): seq<(string, MultiLabelBinarizer)> {
    seq(|multi|, i requires 0 <= i < |multi| => (multi[i].name, MultiLabelBinarizer(multi[i].members)))
  }

  class PydanticOneHotEncoder {
    const model: seq<Field>
    const multiLabelFields: seq<EnumField>
    const singleLabelFields: seq<EnumField>
    const mlbEncoders: seq<(string, MultiLabelBinarizer)>
    const allColumns: seq<string>

    /** Everything the constructor derives is a function of the model alone. */
    ghost predicate Valid() {
      && multiLabelFields == MultiLabel(model)
      && singleLabelFields == SingleLabel(model)
      && mlbEncoders == Encoders(multiLabelFields)
      && allColumns == AllColumns(multiLabelFields, singleLabelFields)
    }

    constructor (model: seq<Field>)
      ensures this.model == model && Valid()
    {
      this.model := model;
      var multi, single := GetEnumFields(model);
      multiLabelFields, singleLabelFields := multi, single;
      mlbEncoders := Encoders(multi);
      allColumns := AllColumns(multi, single);
    }

    /** The body of `transform`'s loop for one instance: builds `encoded_data`, or fails on a
        multi-label field that holds None. */
    method EncodeInstance(data: Instance) returns (r: Result<seq<Entry>>)
      requires Valid()
      ensures r == EncodeRow(multiLabelFields, singleLabelFields, data)
    {
      var multi := EncodeMultiLabel(mlbEncoders, multiLabelFields, data);
      if multi.Err? {
        r := Err(multi.error);
        return;
      }
      var encodedData := AssignSingleFields(multi.value, singleLabelFields, data);
      PutAllAppend([], MultiEntries(multiLabelFields, data).value, SingleEntries(singleLabelFields, data));
      r := Ok(encodedData);
    }

    /** The multi-label part of `transform`'s loop: `encoded_data.update(zip(mlb.classes_,
        encoded))` for each binarizer in turn, failing on a value that is not a list. */
    static method EncodeMultiLabel(encoders: seq<(string, MultiLabelBinarizer)>, multi: seq<EnumField>, data: Instance)
      returns (r: Result<seq<Entry>>)
      requires encoders == Encoders(multi)
      ensures MultiEntries(multi, data).Err? ==> r == Err(MultiEntries(multi, data).error)
      ensures MultiEntries(multi, data).Ok? ==> r == Ok(PutAll([], MultiEntries(multi, data).value))
    {
      var encodedData: seq<Entry> := [];
      ghost var done: seq<Entry> := [];
      var j := 0;
      assert multi[j..] == multi;
      PrependNil(MultiEntries(multi, data));
      while j < |encoders|
        invariant 0 <= j <= |encoders| == |multi|
        invariant encodedData == PutAll([], done)
        invariant MultiEntries(multi, data) == Prepend(done, MultiEntries(multi[j..], data))
      {
        var (field, mlb) := encoders[j];
        assert field == multi[j].name && mlb == MultiLabelBinarizer(multi[j].members);
        var update := EncodeField(field, mlb, data, multi[j]);
        if update.Err? {
          MultiEntriesStop(done, multi, j, data);
          r := Err(update.error);
          return;
        }
        MultiEntriesAdvance(encodedData, done, multi, j, data);
        encodedData := PutAll(encodedData, update.value);
        done := done + update.value;
        j := j + 1;
      }
      assert multi[j..] == [];
      assert done + [] == done;
      r := Ok(encodedData);
    }

    /** One pass of the multi-label loop: `values = data.get(field, [])`, binarized, and paired
        with the classes; iterating a value that is not a list fails. As an enumeration has
        no repeated value, the binarized row is the membership indicators. */
    static method EncodeField(field: string, mlb: MultiLabelBinarizer, data: Instance, ghost f: EnumField)
      returns (r: Result<seq<Entry>>)
      requires field == f.name && mlb == MultiLabelBinarizer(f.members)
      ensures r == MultiFieldEntries(f, data)
    {
      var values := if field in data then data[field] else Labels([]);
      if !values.Labels? {
        return Err(NotIterable(field));
      }
      var encoded := mlb.FitTransform(values.items);
      NoRepeatsDistinct(f.members);
      FitTransformIndicator(mlb, values.items);
      assert encoded == Indicators(f.members, values.items);
      r := Ok(Zip(mlb.classes, encoded));
    }

    /** The single-label part of `transform`'s loop, over the single-label fields in turn. */
    static method AssignSingleFields(d: seq<Entry>, single: seq<EnumField>, data: Instance) returns (d': seq<Entry>)
      ensures d' == PutAll(d, SingleEntries(single, data))
    {
      d' := d;
      ghost var done: seq<Entry> := [];
      var s := 0;
      assert single[s..] == single;
      while s < |single|
        invariant 0 <= s <= |single|
        invariant d' == PutAll(d, done)
        invariant done + SingleEntries(single[s..], data) == SingleEntries(single, data)
      {
        ghost var fieldEntries := SingleFieldEntries(single[s], data);
        SingleEntriesAdvance(done, single, s, data);
        d' := AssignSingleField(d', single[s], data);
        assert d' == PutAll(d, done + fieldEntries) by {
          PutAllAppend(d, done, fieldEntries);
        }
        done := done + fieldEntries;
        s := s + 1;
      }
      assert single[s..] == [];
      assert done + [] == done;
    }

    /** The inner loop of `transform` for one single-label field: writes
        `1 if class_value == value else 0` under each member, in enumeration order. */
    static method AssignSingleField(d: seq<Entry>, f: EnumField, data: Instance) returns (d': seq<Entry>)
      ensures d' == PutAll(d, SingleFieldEntries(f, data))
    {
      var value := if f.name in data then data[f.name] else Null;
      var allClasses := f.members;
      ghost var fieldEntries := SingleFieldEntries(f, data);
      d' := d;
      var c := 0;
      assert fieldEntries[..c] == [];
      while c < |allClasses|
        invariant 0 <= c <= |allClasses|
        invariant d' == PutAll(d, fieldEntries[..c])
      {
        var classValue := allClasses[c];
        var e := Entry(classValue, if value == Label(classValue) then 1 else 0);
        assert fieldEntries[..c + 1] == fieldEntries[..c] + [e];
        PutAllAppend(d, fieldEntries[..c], [e]);
        d' := Put(d', e);
        c := c + 1;
      }
      assert fieldEntries[..c] == fieldEntries;
    }

    /** `transform`: one row per instance, labelled with the column list fixed at construction;
        fails as the source does on a None multi-label value or a width mismatch. */
    method Transform(instances: seq<Instance>) returns (r: Result<Table>)
      requires Valid()
      ensures r == EncodeBatch(multiLabelFields, singleLabelFields, instances)
      ensures r.Ok? ==> r.value.columns == allColumns && |r.value.rows| == |instances|
      ensures r.Ok? ==> forall i | 0 <= i < |instances| :: |r.value.rows[i]| == |allColumns|
    {
      var encodedResults: seq<seq<Entry>> := [];
      var n := 0;
      assert instances[n..] == instances;
      PrependNil(EncodeRows(multiLabelFields, singleLabelFields, instances));
      while n < |instances|
        invariant 0 <= n <= |instances|
        invariant EncodeRows(multiLabelFields, singleLabelFields, instances)
                  == Prepend(encodedResults, EncodeRows(multiLabelFields, singleLabelFields, instances[n..]))
      {
        assert instances[n..][0] == instances[n];
        assert instances[n..][1..] == instances[n + 1..];
        var encodedData := EncodeInstance(instances[n]);
        if encodedData.Err? {
          assert EncodeRows(multiLabelFields, singleLabelFields, instances[n..]) == Err(encodedData.error);
          r := Err(encodedData.error);
          return;
        }
        PrependPrepend(encodedResults, [encodedData.value], EncodeRows(multiLabelFields, singleLabelFields, instances[n + 1..]));
        encodedResults := encodedResults + [encodedData.value];
        n := n + 1;
      }
      assert instances[n..] == [];
      assert encodedResults + [] == encodedResults;
      assert EncodeRows(multiLabelFields, singleLabelFields, instances) == Ok(encodedResults);
      r := Frame(encodedResults, allColumns);
      EncodeBatchCells(multiLabelFields, singleLabelFields, instances);
      AllColumnsLayout(multiLabelFields, singleLabelFields);
    }
  }
}
