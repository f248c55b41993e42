/** What `transform` computes, stated as functions: the dict each instance is encoded into,
    the DataFrame built from those dicts and relabelled with the fixed columns, and the
    meaning of every cell of the result. */
module Encoding {
  import opened Sequences
  import opened Schema
  import opened Columns
  import opened OrderedDict

  /** A field value of `instance.model_dump()`: a list of members, one member, or None. */
  datatype Value = Labels(items: seq<Member>) | Label(item: Member) | Null

  /** `instance.model_dump()`: field name to value. */
  type Instance = map<string, Value>

  datatype EncodeError =
      /** The binarizer iterated a multi-label field that holds None (a TypeError). */
    | NotIterable(field: string)
      /** `df.columns = all_columns` found a different number of columns (a ValueError). */
    | LengthMismatch(expected: nat, actual: nat)

  datatype Result<T> = Ok(value: T) | Err(error: EncodeError)

  /** A DataFrame: column labels and one list of cells per row. */
  datatype Table = Table(columns: seq<string>, rows: seq<seq<int>>)

  function Prepend<T>(prefix: seq<T>, r: Result<seq<T>>): Result<seq<T>> {
    match r
    case Ok(s) => Ok(prefix + s)
    case Err(e) => Err(e)
  }

  lemma PrependNil<T>(r: Result<seq<T>>)
    ensures Prepend([], r) == r
  {
    match r
    case Ok(s) => assert [] + s == s;
    case Err(_) =>
  }

  lemma PrependPrepend<T>(a: seq<T>, b: seq<T>, r: Result<seq<T>>)
    ensures Prepend(a, Prepend(b, r)) == Prepend(a + b, r)
  {
    match r
    case Ok(s) => assert a + (b + s) == (a + b) + s;
    case Err(_) =>
  }

  /** `data.get(field, [])`. */
  function ListValue(inst: Instance, field: string): Value {
    if field in inst then inst[field] else Labels([])
  }

  /** `data.get(field)`: None when the field is absent. */
  function ScalarValue(inst: Instance, field: string): Value {
    if field in inst then inst[field] else Null
  }

  /** `zip(keys, bits)` read as dict entries; it stops at the shorter input. */
  function Zip(keys: seq<string>, bits: seq<int>): seq<Entry> {
    var n := if |keys| <= |bits| then |keys| else |bits|;
    seq(n, i requires 0 <= i < n => Entry(keys[i], bits[i]))
  }

  /** For each class in order, 1 when it is among the labels and 0 otherwise. */
  function Indicators(classes: seq<Member>, labels: seq<Member>): seq<int> {
    seq(|classes|, j requires 0 <= j < |classes| => if classes[j] in labels then 1 else 0)
  }

  /** The entries one multi-label field writes:
      `dict(zip(mlb.classes_, mlb.fit_transform([values])[0]))`, with the binarized row stated
      as the membership indicators it equals (`Binarizer.FitTransformIndicator`). Iterating
      anything but a list fails; for a conforming instance that is None. */
  function MultiFieldEntries(f: EnumField, inst: Instance): Result<seq<Entry>> {
    match ListValue(inst, f.name)
    case Labels(items) => Ok(Zip(f.members, Indicators(f.members, items)))
    case _ => Err(NotIterable(f.name))
  }

  /** The entries of all multi-label fields in order, or the first failure. */
  function MultiEntries(fs: seq<EnumField>, inst: Instance): Result<seq<Entry>> {
    if fs == [] then Ok([])
    else
      match MultiFieldEntries(fs[0], inst)
      case Err(e) => Err(e)
      case Ok(u) => Prepend(u, MultiEntries(fs[1..], inst))
  }

  /** The entries one single-label field writes: `1 if class_value == value else 0` under the
      bare member as key. */
  function SingleFieldEntries(f: EnumField, inst: Instance): seq<Entry> {
    var value := ScalarValue(inst, f.name);
    seq(|f.members|, c requires 0 <= c < |f.members| =>
      Entry(f.members[c], if value == Label(f.members[c]) then 1 else 0))
  }

  function SingleEntries(fs: seq<EnumField>, inst: Instance): seq<Entry> {
    if fs == [] then [] else SingleFieldEntries(fs[0], inst) + SingleEntries(fs[1..], inst)
  }

  /** Unfolds the multi-label entries at field `j`. */
  lemma MultiEntriesStep(fs: seq<EnumField>, j: nat, inst: Instance)
    requires j < |fs|
    ensures MultiEntries(fs[j..], inst) ==
              match MultiFieldEntries(fs[j], inst)
              case Err(e) => Err(e)
              case Ok(u) => Prepend(u, MultiEntries(fs[j + 1..], inst))
  {
    assert fs[j..][0] == fs[j] && fs[j..][1..] == fs[j + 1..];
  }

  /** Unfolds the single-label entries at field `s`. */
  lemma SingleEntriesStep(fs: seq<EnumField>, s: nat, inst: Instance)
    requires s < |fs|
    ensures SingleEntries(fs[s..], inst) == SingleFieldEntries(fs[s], inst) + SingleEntries(fs[s + 1..], inst)
  {
    assert fs[s..][0] == fs[s] && fs[s..][1..] == fs[s + 1..];
  }

  /** Moves multi-label field `j`, when it can be iterated, from the pending entries to the
      dict `d` that holds the assigned ones. */
  lemma MultiEntriesAdvance(d: seq<Entry>, done: seq<Entry>, fs: seq<EnumField>, j: nat, inst: Instance)
    requires j < |fs| && MultiFieldEntries(fs[j], inst).Ok?
    requires d == PutAll([], done)
    requires MultiEntries(fs, inst) == Prepend(done, MultiEntries(fs[j..], inst))
    ensures var update := MultiFieldEntries(fs[j], inst).value;
            && PutAll(d, update) == PutAll([], done + update)
            && MultiEntries(fs, inst) == Prepend(done + update, MultiEntries(fs[j + 1..], inst))
  {
    var update := MultiFieldEntries(fs[j], inst).value;
    MultiEntriesStep(fs, j, inst);
    PrependPrepend(done, update, MultiEntries(fs[j + 1..], inst));
    PutAllAppend([], done, update);
  }

  /** A multi-label field that cannot be iterated ends the entries with its failure. */
  lemma MultiEntriesStop(done: seq<Entry>, fs: seq<EnumField>, j: nat, inst: Instance)
    requires j < |fs| && MultiFieldEntries(fs[j], inst).Err?
    requires MultiEntries(fs, inst) == Prepend(done, MultiEntries(fs[j..], inst))
    ensures MultiEntries(fs, inst) == Err(MultiFieldEntries(fs[j], inst).error)
  {
    MultiEntriesStep(fs, j, inst);
  }

  /** Moves field `s` from the pending single-label entries to the assigned ones. */
  lemma SingleEntriesAdvance(done: seq<Entry>, fs: seq<EnumField>, s: nat, inst: Instance)
    requires s < |fs|
    ensures done + SingleEntries(fs[s..], inst) == (done + SingleFieldEntries(fs[s], inst)) + SingleEntries(fs[s + 1..], inst)
  {
    SingleEntriesStep(fs, s, inst);
  }

  /** `encoded_data` for one instance: all entries assigned in order into an empty dict. */
  function EncodeRow(multi: seq<EnumField>, single: seq<EnumField>, inst: Instance): Result<seq<Entry>> {
    match MultiEntries(multi, inst)
    case Err(e) => Err(e)
    case Ok(mu) => Ok(PutAll([], mu + SingleEntries(single, inst)))
  }

  /** `encoded_results`, or the first failure. */
  function EncodeRows(multi: seq<EnumField>, single: seq<EnumField>, insts: seq<Instance>): Result<seq<seq<Entry>>> {
    if insts == [] then Ok([])
    else
      match EncodeRow(multi, single, insts[0])
      case Err(e) => Err(e)
      case Ok(d) => Prepend([d], EncodeRows(multi, single, insts[1..]))
  }

  /** `pd.DataFrame(rows)` and then `df.columns = columns`. The frame's own columns are the
      keys of the rows in order of first appearance; every row the encoder builds has the
      same keys (EncodeRowKeys), so they are the first row's keys. No rows give no columns.
      Relabelling is positional and fails unless the counts agree. */
  function Frame(rows: seq<seq<Entry>>, columns: seq<string>): Result<Table> {
    if rows == [] then
      if columns == [] then Ok(Table(columns, [])) else Err(LengthMismatch(|columns|, 0))
    else
      var header := Keys(rows[0]);
      if |header| != |columns| then Err(LengthMismatch(|columns|, |header|))
      else
        Ok(Table(columns, seq(|rows|, i requires 0 <= i < |rows| =>
                             seq(|header|, k requires 0 <= k < |header| => Lookup(rows[i], header[k])))))
  }

  /** `transform(instances)`. */
  function EncodeBatch(multi: seq<EnumField>, single: seq<EnumField>, insts: seq<Instance>): Result<Table> {
    match EncodeRows(multi, single, insts)
    case Err(e) => Err(e)
    case Ok(rows) => Frame(rows, AllColumns(multi, single))
  }

  // ---------------------------------------------------------------------------------------
  // The meaning of a cell, stated independently of how the rows are built

  /** A multi-label cell is 1 when the member is in the field's list; a single-label cell is
      1 when the field's value is that member. */
  function Cell(s: Slot, inst: Instance): int {
    if s.multi then
      if s.field in inst && inst[s.field].Labels? && s.member in inst[s.field].items then 1 else 0
    else
      if s.field in inst && inst[s.field] == Label(s.member) then 1 else 0
  }

  /** Every multi-label field can be iterated: absent or holding a list. */
  predicate ListsPresent(multi: seq<EnumField>, inst: Instance) {
    forall f | f in multi :: ListValue(inst, f.name).Labels?
  }

  /** The entries the slots call for, keyed by bare member. */
  function Expected(slots: seq<Slot>, inst: Instance): seq<Entry> {
    seq(|slots|, k requires 0 <= k < |slots| => Entry(slots[k].member, Cell(slots[k], inst)))
  }

  lemma ExpectedAppend(a: seq<Slot>, b: seq<Slot>, inst: Instance)
    ensures Expected(a + b, inst) == Expected(a, inst) + Expected(b, inst)
  {
  }

  /** The multi-label entries exist exactly when every multi-label field can be iterated,
      and then hold, for every field and member in order, whether the member is listed. */
  lemma {:induction false} MultiEntriesSpec(fs: seq<EnumField>, inst: Instance)
    ensures MultiEntries(fs, inst).Ok? <==> ListsPresent(fs, inst)
    ensures MultiEntries(fs, inst).Ok? ==> MultiEntries(fs, inst).value == Expected(GroupSlots(fs, true), inst)
    ensures MultiEntries(fs, inst).Err? ==>
              exists f | f in fs :: MultiEntries(fs, inst).error == NotIterable(f.name) && !ListValue(inst, f.name).Labels?
  {
    if fs != [] {
      MultiEntriesSpec(fs[1..], inst);
      var f := fs[0];
      assert forall g | g in fs :: g == f || g in fs[1..];
      ExpectedAppend(FieldSlots(f, true), GroupSlots(fs[1..], true), inst);
      match ListValue(inst, f.name)
      case Labels(items) =>
        assert Zip(f.members, Indicators(f.members, items)) == Expected(FieldSlots(f, true), inst);
      case _ =>
    }
  }

  /** The single-label entries hold, for every field and member in order, whether the field's
      value is that member. */
  lemma {:induction false} SingleEntriesSpec(fs: seq<EnumField>, inst: Instance)
    ensures SingleEntries(fs, inst) == Expected(GroupSlots(fs, false), inst)
  {
    if fs != [] {
      SingleEntriesSpec(fs[1..], inst);
      ExpectedAppend(FieldSlots(fs[0], false), GroupSlots(fs[1..], false), inst);
      assert SingleFieldEntries(fs[0], inst) == Expected(FieldSlots(fs[0], false), inst);
    }
  }

  /** One instance: the row exists exactly when every multi-label field can be iterated. Its
      keys depend on the schema alone (the bare keys, each kept at its first position); when the
      bare keys are distinct the row holds exactly one entry per slot, with the cell's value. */
  lemma EncodeRowSpec(multi: seq<EnumField>, single: seq<EnumField>, inst: Instance)
    ensures EncodeRow(multi, single, inst).Ok? <==> ListsPresent(multi, inst)
    ensures EncodeRow(multi, single, inst).Ok? ==>
              Keys(EncodeRow(multi, single, inst).value) == AddNew([], BareKeys(multi, single))
    ensures EncodeRow(multi, single, inst).Ok? && Distinct(BareKeys(multi, single)) ==>
              EncodeRow(multi, single, inst).value == Expected(Layout(multi, single), inst)
    ensures EncodeRow(multi, single, inst).Err? ==>
              exists f | f in multi :: EncodeRow(multi, single, inst).error == NotIterable(f.name) && !ListValue(inst, f.name).Labels?
  {
    MultiEntriesSpec(multi, inst);
    SingleEntriesSpec(single, inst);
    if MultiEntries(multi, inst).Ok? {
      var es := Expected(Layout(multi, single), inst);
      ExpectedAppend(GroupSlots(multi, true), GroupSlots(single, false), inst);
      assert MultiEntries(multi, inst).value + SingleEntries(single, inst) == es;
      assert Keys(es) == BareKeys(multi, single);
      assert Keys([]) == [];
      PutAllKeys([], es);
      if Distinct(BareKeys(multi, single)) {
        assert Keys([]) + Keys(es) == Keys(es);
        PutAllFresh([], es);
        assert [] + es == es;
      }
    }
  }

  /** Every row in `encoded_results` has the same keys. */
  lemma EncodeRowKeys(multi: seq<EnumField>, single: seq<EnumField>, i1: Instance, i2: Instance)
    requires EncodeRow(multi, single, i1).Ok? && EncodeRow(multi, single, i2).Ok?
    ensures Keys(EncodeRow(multi, single, i1).value) == Keys(EncodeRow(multi, single, i2).value)
  {
    EncodeRowSpec(multi, single, i1);
    EncodeRowSpec(multi, single, i2);
  }

  /** The batch of rows: one row per instance, in input order, or the first instance's failure. */
  lemma {:induction false} EncodeRowsSpec(multi: seq<EnumField>, single: seq<EnumField>, insts: seq<Instance>)
    ensures EncodeRows(multi, single, insts).Ok? <==> forall i | 0 <= i < |insts| :: EncodeRow(multi, single, insts[i]).Ok?
    ensures EncodeRows(multi, single, insts).Ok? ==>
              |EncodeRows(multi, single, insts).value| == |insts| &&
              forall i | 0 <= i < |insts| :: EncodeRow(multi, single, insts[i]) == Ok(EncodeRows(multi, single, insts).value[i])
    ensures EncodeRows(multi, single, insts).Err? ==>
              exists i | 0 <= i < |insts| :: EncodeRow(multi, single, insts[i]) == Err(EncodeRows(multi, single, insts).error)
  {
    if insts != [] {
      var tail := insts[1..];
      EncodeRowsSpec(multi, single, tail);
      forall i | 1 <= i < |insts| ensures insts[i] == tail[i - 1] { }
      match EncodeRow(multi, single, insts[0])
      case Err(e) =>
        assert EncodeRows(multi, single, insts) == Err(e);
      case Ok(d) =>
        var rest := EncodeRows(multi, single, tail);
        assert EncodeRows(multi, single, insts) == Prepend([d], rest);
        if rest.Err? {
          var i :| 0 <= i < |tail| && EncodeRow(multi, single, tail[i]) == Err(rest.error);
          assert insts[i + 1] == tail[i];
        } else {
          assert EncodeRows(multi, single, insts).value == [d] + rest.value;
        }
    }
  }

  /** The table `transform` should produce: the column `field_member` for every (field, member)
      pair in layout order, one row per instance in input order, as wide as the column list, whose cell in column `k` of row `i` is the 0/1
      indicator of the k-th (field, member) pair for instance `i`. */
  ghost predicate Tabulates(multi: seq<EnumField>, single: seq<EnumField>, insts: seq<Instance>, t: Table) {
    var layout := Layout(multi, single);
    && |t.columns| == |layout|
    && (forall k {:trigger ColumnName(layout[k].field, layout[k].member)} | 0 <= k < |layout| ::
          t.columns[k] == ColumnName(layout[k].field, layout[k].member))
    && |t.rows| == |insts|
    && (forall i | 0 <= i < |insts| :: |t.rows[i]| == |layout|)
    && (forall i, k {:trigger Cell(layout[k], insts[i])} | 0 <= i < |insts| && 0 <= k < |t.rows[i]| ::
          t.rows[i][k] == Cell(layout[k], insts[i]))
  }

  /** When every row has the keys `keys`, without repeats, and there are as many of them as
      columns, cell `k` of row `i` of the frame is the value of the row's k-th entry. */
  lemma FrameLookup(rows: seq<seq<Entry>>, columns: seq<string>, keys: seq<string>, i: nat, k: nat)
    requires rows != [] && i < |rows| && |keys| == |columns| && Distinct(keys)
    requires forall r | 0 <= r < |rows| :: Keys(rows[r]) == keys
    ensures Frame(rows, columns).Ok?
    ensures |Frame(rows, columns).value.rows| == |rows|
    ensures |Frame(rows, columns).value.rows[i]| == |keys| == |rows[i]|
    ensures k < |keys| ==> Frame(rows, columns).value.rows[i][k] == rows[i][k].bit
  {
    assert Keys(rows[i]) == keys;
    if k < |keys| {
      LookupAt(rows[i], k);
    }
  }

  /** When `transform` succeeds on a non-empty batch, the bare keys are distinct and every row
      is the expected one. */
  lemma BatchRows(multi: seq<EnumField>, single: seq<EnumField>, insts: seq<Instance>)
    requires EncodeBatch(multi, single, insts).Ok? && insts != []
    ensures Distinct(BareKeys(multi, single))
    ensures EncodeRows(multi, single, insts).Ok?
    ensures |EncodeRows(multi, single, insts).value| == |insts|
    ensures forall i | 0 <= i < |insts| ::
              EncodeRows(multi, single, insts).value[i] == Expected(Layout(multi, single), insts[i])
  {
    EncodeBatchOutcome(multi, single, insts);
    EncodeRowsSpec(multi, single, insts);
    forall i | 0 <= i < |insts|
      ensures EncodeRows(multi, single, insts).value[i] == Expected(Layout(multi, single), insts[i])
    {
      EncodeRowSpec(multi, single, insts[i]);
    }
  }

  /** The result of `transform`, when it succeeds, is the table `Tabulates` describes. */
  lemma EncodeBatchCells(multi: seq<EnumField>, single: seq<EnumField>, insts: seq<Instance>)
    ensures EncodeBatch(multi, single, insts).Ok? ==> EncodeBatch(multi, single, insts).value.columns == AllColumns(multi, single)
    ensures EncodeBatch(multi, single, insts).Ok? ==> Tabulates(multi, single, insts, EncodeBatch(multi, single, insts).value)
  {
    if EncodeBatch(multi, single, insts).Ok? {
      AllColumnsLayout(multi, single);
      var t := EncodeBatch(multi, single, insts).value;
      var layout, keys := Layout(multi, single), BareKeys(multi, single);
      if insts != [] {
        BatchRows(multi, single, insts);
        var rows := EncodeRows(multi, single, insts).value;
        forall r | 0 <= r < |rows| ensures Keys(rows[r]) == keys {
          assert rows[r] == Expected(layout, insts[r]);
        }
        forall i, k | 0 <= i < |insts| && 0 <= k < |layout|
          ensures |t.rows[i]| == |layout| && t.rows[i][k] == Cell(layout[k], insts[i])
        {
          FrameLookup(rows, AllColumns(multi, single), keys, i, k);
        }
        forall i | 0 <= i < |insts| ensures |t.rows[i]| == |layout| {
          FrameLookup(rows, AllColumns(multi, single), keys, i, 0);
        }
      }
    }
  }

  /** Every cell of a successful `transform` is 0 or 1. */
  lemma EncodeBatchBinary(multi: seq<EnumField>, single: seq<EnumField>, insts: seq<Instance>)
    requires EncodeBatch(multi, single, insts).Ok?
    ensures forall i, k | 0 <= i < |EncodeBatch(multi, single, insts).value.rows| &&
                          0 <= k < |EncodeBatch(multi, single, insts).value.rows[i]| ::
              EncodeBatch(multi, single, insts).value.rows[i][k] in {0, 1}
  {
    EncodeBatchCells(multi, single, insts);
    var t, layout := EncodeBatch(multi, single, insts).value, Layout(multi, single);
    forall i, k | 0 <= i < |t.rows| && 0 <= k < |t.rows[i]| ensures t.rows[i][k] in {0, 1} {
      assert t.rows[i][k] == Cell(layout[k], insts[i]);
    }
  }

  /** Two single-label fields sharing a member: the second field's bare key overwrites the
      first's, the rows have three keys against four columns, and relabelling fails. */
  lemma SharedMemberFails()
    ensures var status, level := EnumField("status", ["a", "b"]), EnumField("level", ["a", "c"]);
            EncodeBatch([], [status, level], [map["status" := Label("a")]]) == Err(LengthMismatch(4, 3))
  {
    var status, level := EnumField("status", ["a", "b"]), EnumField("level", ["a", "c"]);
    var inst: Instance := map["status" := Label("a")];
    var d := [Entry("a", 0), Entry("b", 0), Entry("c", 0)];
    SharedMemberRow();
    assert EncodeRows([], [status, level], [inst]) == Ok([d]) by {
      assert [inst][1..] == [];
      assert [d] + [] == [d];
    }
    assert Keys(d) == ["a", "b", "c"];
    assert |AllColumns([], [status, level])| == 4 by {
      assert [status, level][1..] == [level];
      assert [level][1..] == [];
      assert |GroupColumns([level])| == 2;
    }
  }

  /** The row of SharedMemberFails: `a` keeps its first position and the value `level` wrote. */
  lemma SharedMemberRow()
    ensures EncodeRow([], [EnumField("status", ["a", "b"]), EnumField("level", ["a", "c"])], map["status" := Label("a")])
            == Ok([Entry("a", 0), Entry("b", 0), Entry("c", 0)])
  {
    var es := [Entry("a", 1), Entry("b", 0), Entry("a", 0), Entry("c", 0)];
    SharedMemberEntries();
    SharedMemberAssign();
    assert [] + es == es;
  }

  /** The entries of SharedMemberFails: both fields write under the bare key `a`. */
  lemma SharedMemberEntries()
    ensures SingleEntries([EnumField("status", ["a", "b"]), EnumField("level", ["a", "c"])], map["status" := Label("a")])
            == [Entry("a", 1), Entry("b", 0), Entry("a", 0), Entry("c", 0)]
  {
    var status, level := EnumField("status", ["a", "b"]), EnumField("level", ["a", "c"]);
    var inst: Instance := map["status" := Label("a")];
    var first := [Entry("a", 1), Entry("b", 0)];
    var second := [Entry("a", 0), Entry("c", 0)];
    assert SingleFieldEntries(status, inst) == first;
    assert SingleFieldEntries(level, inst) == second;
    assert [status, level][1..] == [level];
    assert [level][1..] == [];
    assert SingleEntries([level], inst) == second + [] == second;
  }

  /** Assigning the entries of SharedMemberFails in turn. */
  lemma SharedMemberAssign()
    ensures PutAll([], [Entry("a", 1), Entry("b", 0), Entry("a", 0), Entry("c", 0)])
            == [Entry("a", 0), Entry("b", 0), Entry("c", 0)]
  {
    var first := [Entry("a", 1), Entry("b", 0)];
    var second := [Entry("a", 0), Entry("c", 0)];
    PutAllAppend([], first, second);
    assert first + second == [Entry("a", 1), Entry("b", 0), Entry("a", 0), Entry("c", 0)];
    assert first[1..] == [Entry("b", 0)];
    assert second[1..] == [Entry("c", 0)];
    assert PutAll([], first) == first;
    assert Keys(first) == ["a", "b"];
    assert Put(first, second[0]) == [Entry("a", 0), Entry("b", 0)];
    assert Keys([Entry("a", 0), Entry("b", 0)]) == ["a", "b"];
  }

  /** The rows can all be built exactly when no instance holds None in a multi-label field. */
  lemma EncodeRowsOk(multi: seq<EnumField>, single: seq<EnumField>, insts: seq<Instance>)
    ensures EncodeRows(multi, single, insts).Ok? <==> forall i | 0 <= i < |insts| :: ListsPresent(multi, insts[i])
  {
    EncodeRowsSpec(multi, single, insts);
    forall i | 0 <= i < |insts| ensures EncodeRow(multi, single, insts[i]).Ok? <==> ListsPresent(multi, insts[i]) {
      EncodeRowSpec(multi, single, insts[i]);
    }
  }

  /** When `transform` succeeds: no multi-label field of any instance holds None, and the row
      width matches the column list, that is the batch is non-empty and the bare keys are
      pairwise distinct, or the batch and the column list are both empty. */
  lemma EncodeBatchOutcome(multi: seq<EnumField>, single: seq<EnumField>, insts: seq<Instance>)
    ensures EncodeBatch(multi, single, insts).Ok? <==>
              (forall i | 0 <= i < |insts| :: ListsPresent(multi, insts[i])) &&
              (if insts == [] then AllColumns(multi, single) == [] else Distinct(BareKeys(multi, single)))
  {
    EncodeRowsOk(multi, single, insts);
    EncodeRowsSpec(multi, single, insts);
    BareKeysWidth(multi, single);
    if EncodeRows(multi, single, insts).Ok? && insts != [] {
      EncodeRowSpec(multi, single, insts[0]);
    }
  }

  /** A row holds one key per column exactly when the bare keys are pairwise distinct, and
      fewer otherwise. */
  lemma BareKeysWidth(multi: seq<EnumField>, single: seq<EnumField>)
    ensures |AddNew([], BareKeys(multi, single))| <= |AllColumns(multi, single)|
    ensures |AddNew([], BareKeys(multi, single))| == |AllColumns(multi, single)| <==> Distinct(BareKeys(multi, single))
  {
    GroupColumnsLength(multi);
    GroupColumnsLength(single);
    GroupSlotsLength(multi, true);
    GroupSlotsLength(single, false);
    var keys := BareKeys(multi, single);
    AddNewLength([], keys);
    assert [] + keys == keys;
  }

  /** How `transform` fails: on a multi-label field that holds None, or on a width mismatch,
      which always finds fewer columns than the column list has. */
  lemma EncodeBatchErrors(multi: seq<EnumField>, single: seq<EnumField>, insts: seq<Instance>)
    ensures EncodeBatch(multi, single, insts).Err? && EncodeBatch(multi, single, insts).error.NotIterable? ==>
              exists i, f | 0 <= i < |insts| && f in multi ::
                EncodeBatch(multi, single, insts).error.field == f.name && !ListValue(insts[i], f.name).Labels?
    ensures EncodeBatch(multi, single, insts).Err? && EncodeBatch(multi, single, insts).error.LengthMismatch? ==>
              EncodeBatch(multi, single, insts).error.expected == |AllColumns(multi, single)| &&
              EncodeBatch(multi, single, insts).error.actual < EncodeBatch(multi, single, insts).error.expected
  {
    EncodeRowsSpec(multi, single, insts);
    var r := EncodeRows(multi, single, insts);
    if r.Err? {
      var i :| 0 <= i < |insts| && EncodeRow(multi, single, insts[i]) == Err(r.error);
      EncodeRowSpec(multi, single, insts[i]);
    } else if insts != [] {
      BareKeysWidth(multi, single);
      EncodeRowSpec(multi, single, insts[0]);
    }
  }

  // ---------------------------------------------------------------------------------------
  // The cells of one field

  /** Cell of member `j` of multi-label field `fi`: column `field_member`, 1 exactly when the
      member is in the instance's list, 0 otherwise, so an absent field gives 0. */
  lemma MultiLabelCell(multi: seq<EnumField>, single: seq<EnumField>, insts: seq<Instance>, t: Table, i: nat, fi: nat, j: nat)
    requires Tabulates(multi, single, insts, t)
    requires i < |insts| && fi < |multi| && j < |multi[fi].members|
    ensures var col := MemberCount(multi[..fi]) + j;
            var f := multi[fi];
            && col < |t.columns| && i < |t.rows| && |t.rows[i]| == |t.columns|
            && t.columns[col] == ColumnName(f.name, f.members[j])
            && (t.rows[i][col] == 1 <==>
                  f.name in insts[i] && insts[i][f.name].Labels? && f.members[j] in insts[i][f.name].items)
            && (t.rows[i][col] == 0 <==> !(t.rows[i][col] == 1))
  {
    TabulatesShape(multi, single, insts, t, i);
    SlotPosition(multi, true, fi, j);
    GroupSlotsLength(multi, true);
    var col := MemberCount(multi[..fi]) + j;
    assert Layout(multi, single)[col] == Slot(multi[fi].name, multi[fi].members[j], true);
    TabulatesCell(multi, single, insts, t, i, col);
  }

  /** How many cells of a list are 1. */
  function Ones(s: seq<int>): nat {
    if s == [] then 0 else (if s[0] == 1 then 1 else 0) + Ones(s[1..])
  }

  /** The indicators `value == member` over an enumeration. */
  function MatchBits(value: Value, ms: seq<Member>): seq<int> {
    seq(|ms|, j requires 0 <= j < |ms| => if value == Label(ms[j]) then 1 else 0)
  }

  /** Over an enumeration without repeated members, the indicators hold exactly one 1 when the
      value is a member, and none otherwise. */
  lemma {:induction false} MatchBitsOneHot(value: Value, ms: seq<Member>)
    requires Distinct(ms)
    ensures Ones(MatchBits(value, ms)) == if value.Label? && value.item in ms then 1 else 0
  {
    if ms != [] {
      assert Distinct(ms[1..]) by {
        forall a, b | 0 <= a < b < |ms[1..]| ensures ms[1..][a] != ms[1..][b] {
          assert ms[1..][a] == ms[a + 1] && ms[1..][b] == ms[b + 1];
        }
      }
      MatchBitsOneHot(value, ms[1..]);
      assert MatchBits(value, ms)[1..] == MatchBits(value, ms[1..]);
      if value == Label(ms[0]) {
        forall b | 0 <= b < |ms[1..]| ensures ms[1..][b] != ms[0] {
          assert ms[1..][b] == ms[b + 1];
        }
      }
      assert ms == [ms[0]] + ms[1..];
    }
  }

  /** Member `j` of single-label field `si` is at position
      `MemberCount(multi) + MemberCount(single[..si]) + j` of the layout. */
  lemma SingleSlotPosition(multi: seq<EnumField>, single: seq<EnumField>, si: nat, j: nat)
    requires si < |single| && j < |single[si].members|
    ensures MemberCount(multi) + MemberCount(single[..si]) + j < |Layout(multi, single)|
    ensures Layout(multi, single)[MemberCount(multi) + MemberCount(single[..si]) + j]
            == Slot(single[si].name, single[si].members[j], false)
  {
    GroupSlotsLength(multi, true);
    SlotPosition(single, false, si, j);
  }

  /** A single-label cell is the indicator `value == member`. */
  lemma SingleCellBit(inst: Instance, f: EnumField, j: nat)
    requires j < |f.members|
    ensures Cell(Slot(f.name, f.members[j], false), inst) == MatchBits(ScalarValue(inst, f.name), f.members)[j]
  {
  }

  /** The dimensions of a table that `Tabulates` describes. */
  lemma TabulatesShape(multi: seq<EnumField>, single: seq<EnumField>, insts: seq<Instance>, t: Table, i: nat)
    requires Tabulates(multi, single, insts, t)
    requires i < |insts|
    ensures |t.columns| == |Layout(multi, single)| == MemberCount(multi) + MemberCount(single)
    ensures |t.rows| == |insts| && |t.rows[i]| == |t.columns|
  {
    GroupSlotsLength(multi, true);
    GroupSlotsLength(single, false);
  }

  /** Column `k` of a table that `Tabulates` describes: its label and its cell in row `i`. */
  lemma TabulatesCell(multi: seq<EnumField>, single: seq<EnumField>, insts: seq<Instance>, t: Table, i: nat, k: nat)
    requires Tabulates(multi, single, insts, t)
    requires i < |insts| && k < |Layout(multi, single)|
    ensures |t.columns| == |Layout(multi, single)| && i < |t.rows| && |t.rows[i]| == |t.columns|
    ensures t.columns[k] == ColumnName(Layout(multi, single)[k].field, Layout(multi, single)[k].member)
    ensures t.rows[i][k] == Cell(Layout(multi, single)[k], insts[i])
  {
  }

  /** The cells of single-label field `si` in row `i` are the indicators `value == member`
      under the columns `field_member`. */
  lemma SingleBlockCells(multi: seq<EnumField>, single: seq<EnumField>, insts: seq<Instance>, t: Table, i: nat, si: nat)
    requires Tabulates(multi, single, insts, t)
    requires i < |insts| && si < |single|
    ensures var f := single[si];
            var start := MemberCount(multi) + MemberCount(single[..si]);
            && start + |f.members| <= |t.columns| && i < |t.rows| && |t.rows[i]| == |t.columns|
            && forall j | 0 <= j < |f.members| ::
                 t.columns[start + j] == ColumnName(f.name, f.members[j]) &&
                 t.rows[i][start + j] == MatchBits(ScalarValue(insts[i], f.name), f.members)[j]
  {
    SingleBlockBounds(multi, single, insts, t, i, si);
    var f := single[si];
    var start := MemberCount(multi) + MemberCount(single[..si]);
    forall j | 0 <= j < |f.members|
      ensures t.columns[start + j] == ColumnName(f.name, f.members[j]) &&
              t.rows[i][start + j] == MatchBits(ScalarValue(insts[i], f.name), f.members)[j]
    {
      SingleCellAt(multi, single, insts, t, i, si, j);
    }
  }

  /** The block of single-label field `si` lies within row `i`. */
  lemma SingleBlockBounds(multi: seq<EnumField>, single: seq<EnumField>, insts: seq<Instance>, t: Table, i: nat, si: nat)
    requires Tabulates(multi, single, insts, t)
    requires i < |insts| && si < |single|
    ensures MemberCount(multi) + MemberCount(single[..si]) + |single[si].members| <= |t.columns|
    ensures i < |t.rows| && |t.rows[i]| == |t.columns|
  {
    TabulatesShape(multi, single, insts, t, i);
    FieldOffset(single, si);
  }

  /** Member `j` of single-label field `si` in row `i`. */
  lemma SingleCellAt(multi: seq<EnumField>, single: seq<EnumField>, insts: seq<Instance>, t: Table, i: nat, si: nat, j: nat)
    requires Tabulates(multi, single, insts, t)
    requires i < |insts| && si < |single| && j < |single[si].members|
    ensures var f := single[si];
            var k := MemberCount(multi) + MemberCount(single[..si]) + j;
            && k < |t.columns| && i < |t.rows| && |t.rows[i]| == |t.columns|
            && t.columns[k] == ColumnName(f.name, f.members[j])
            && t.rows[i][k] == MatchBits(ScalarValue(insts[i], f.name), f.members)[j]
  {
    SingleSlotPosition(multi, single, si, j);
    TabulatesCell(multi, single, insts, t, i, MemberCount(multi) + MemberCount(single[..si]) + j);
    SingleCellBit(insts[i], single[si], j);
  }

  /** The block of single-label field `si`: its columns are `field_member` in enumeration order,
      the cell of a member is 1 exactly when the field's value is that member, so the block holds
      exactly one 1 when the value is a member and none when it is absent, None or foreign. */
  lemma SingleLabelOneHot(multi: seq<EnumField>, single: seq<EnumField>, insts: seq<Instance>, t: Table, i: nat, si: nat)
    requires Tabulates(multi, single, insts, t)
    requires i < |insts| && si < |single|
    ensures var f := single[si];
            var start := MemberCount(multi) + MemberCount(single[..si]);
            var value := ScalarValue(insts[i], f.name);
            && start + |f.members| <= |t.columns| && i < |t.rows| && |t.rows[i]| == |t.columns|
            && (forall j | 0 <= j < |f.members| ::
                  t.columns[start + j] == ColumnName(f.name, f.members[j]) &&
                  (t.rows[i][start + j] == 1 <==> value == Label(f.members[j])))
            && Ones(t.rows[i][start..start + |f.members|]) == if value.Label? && value.item in f.members then 1 else 0
  {
    SingleBlockCells(multi, single, insts, t, i, si);
    var f := single[si];
    NoRepeatsDistinct(f.members);
    BlockOneHot(t.rows[i], MemberCount(multi) + MemberCount(single[..si]), ScalarValue(insts[i], f.name), f.members);
  }

  /** A block of cells holding the indicators `value == member` over an enumeration without
      repeated members has a 1 exactly at the value's member. */
  lemma BlockOneHot(row: seq<int>, start: nat, value: Value, ms: seq<Member>)
    requires start + |ms| <= |row| && Distinct(ms)
    requires forall j | 0 <= j < |ms| :: row[start + j] == MatchBits(value, ms)[j]
    ensures forall j | 0 <= j < |ms| :: row[start + j] == 1 <==> value == Label(ms[j])
    ensures Ones(row[start..start + |ms|]) == if value.Label? && value.item in ms then 1 else 0
  {
    assert row[start..start + |ms|] == MatchBits(value, ms);
    MatchBitsOneHot(value, ms);
  }
}
