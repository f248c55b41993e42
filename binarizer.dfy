/** scikit-learn's `MultiLabelBinarizer` built with a fixed class list, as the encoder uses
    it: one sample at a time. */
module Binarizer {
  import opened Sequences
  import opened Schema

  datatype MultiLabelBinarizer = MultiLabelBinarizer(classes: seq<Member>) {
    /** `_build_cache`: `dict(zip(classes_, range(len(classes_))))`, each class to its column;
        as the pairs are assigned in order, a repeated class keeps its last column. */
    function ClassToIndex(): map<Member, nat> {
      map c | c in classes :: LastIndex(classes, c)
    }

    /** `fit_transform([labels])[0]`: the columns `_transform` collects for the sample, written
        out as a dense row with 1 in those columns and 0 elsewhere. */
    function FitTransform(labels: seq<Member>): seq<int> {
      DenseRow(|classes|, LabelIndices(ClassToIndex(), labels))
    }
  }

  /** The last position of `c` in `cs`. */
  function LastIndex(cs: seq<Member>, c: Member): nat
    requires c in cs
    decreases |cs|
  {
    if cs[|cs| - 1] == c then |cs| - 1 else LastIndex(cs[..|cs| - 1], c)
  }

  /** `_transform` for one sample: `index.add(class_mapping[label])` for each label in turn,
      with a label the mapping lacks set aside as unknown. */
  function LabelIndices(mapping: map<Member, nat>, labels: seq<Member>): set<nat> {
    if labels == [] then {}
    else (if labels[0] in mapping then {mapping[labels[0]]} else {}) + LabelIndices(mapping, labels[1..])
  }

  /** `toarray()` of a one-sample sparse row: `n` cells, 1 in the columns of `index` and 0 elsewhere. */
  function DenseRow(n: nat, index: set<nat>): seq<int> {
    if n == 0 then [] else DenseRow(n - 1, index) + [if n - 1 in index then 1 else 0]
  }

  /** The dense row has `n` cells, each the indicator of its column's membership in `index`. */
  lemma {:induction false} DenseRowSpec(n: nat, index: set<nat>)
    ensures |DenseRow(n, index)| == n
    ensures forall j | 0 <= j < n :: DenseRow(n, index)[j] == if j in index then 1 else 0
  {
    if n > 0 {
      DenseRowSpec(n - 1, index);
    }
  }

  /** `LastIndex` finds a position holding `c` with no `c` after it. */
  lemma {:induction false} LastIndexSpec(cs: seq<Member>, c: Member)
    requires c in cs
    ensures LastIndex(cs, c) < |cs| && cs[LastIndex(cs, c)] == c
    ensures forall k | LastIndex(cs, c) < k < |cs| :: cs[k] != c
    decreases |cs|
  {
    if cs[|cs| - 1] != c {
      var init := cs[..|cs| - 1];
      assert c in init by {
        var i :| 0 <= i < |cs| && cs[i] == c;
        assert init[i] == c;
      }
      LastIndexSpec(init, c);
    }
  }

  /** The class-to-column map knows exactly the classes, and sends each class to the last
      column holding it. */
  lemma ClassToIndexSpec(b: MultiLabelBinarizer)
    ensures forall c :: c in b.ClassToIndex() <==> c in b.classes
    ensures forall c | c in b.ClassToIndex() ::
              b.ClassToIndex()[c] < |b.classes| && b.classes[b.ClassToIndex()[c]] == c &&
              forall k | b.ClassToIndex()[c] < k < |b.classes| :: b.classes[k] != c
  {
    forall c | c in b.classes
      ensures LastIndex(b.classes, c) < |b.classes| && b.classes[LastIndex(b.classes, c)] == c
      ensures forall k | LastIndex(b.classes, c) < k < |b.classes| :: b.classes[k] != c
    {
      LastIndexSpec(b.classes, c);
    }
  }

  /** A column is collected exactly when some label is mapped to it. */
  lemma {:induction false} LabelIndicesSpec(mapping: map<Member, nat>, labels: seq<Member>)
    ensures forall j :: j in LabelIndices(mapping, labels) <==>
              exists l | l in labels :: l in mapping && mapping[l] == j
  {
    if labels != [] {
      LabelIndicesSpec(mapping, labels[1..]);
      assert labels == [labels[0]] + labels[1..];
    }
  }

  /** Over classes without repeats, one 0/1 cell per class, and the cell is 1 exactly when the
      class is among the labels. */
  lemma FitTransformIndicator(b: MultiLabelBinarizer, labels: seq<Member>)
    requires Distinct(b.classes)
    ensures |b.FitTransform(labels)| == |b.classes|
    ensures forall j | 0 <= j < |b.classes| ::
              (b.FitTransform(labels)[j] == 1 <==> b.classes[j] in labels) &&
              (b.FitTransform(labels)[j] == 0 <==> b.classes[j] !in labels)
  {
    var m := b.ClassToIndex();
    ClassToIndexSpec(b);
    LabelIndicesSpec(m, labels);
    DenseRowSpec(|b.classes|, LabelIndices(m, labels));
    forall j | 0 <= j < |b.classes|
      ensures j in LabelIndices(m, labels) <==> b.classes[j] in labels
    {
      var c := b.classes[j];
      if c in labels {
        assert m[c] == j;
      }
    }
  }

  /** Only which classes occur matters: not the order of the labels, not their repetitions. */
  lemma LabelOrderIrrelevant(b: MultiLabelBinarizer, l1: seq<Member>, l2: seq<Member>)
    requires forall c | c in b.classes :: c in l1 <==> c in l2
    ensures b.FitTransform(l1) == b.FitTransform(l2)
  {
    var m := b.ClassToIndex();
    ClassToIndexSpec(b);
    LabelIndicesSpec(m, l1);
    LabelIndicesSpec(m, l2);
    assert LabelIndices(m, l1) == LabelIndices(m, l2);
    assert b.FitTransform(l1) == DenseRow(|b.classes|, LabelIndices(m, l1));
  }

  /** A label outside the classes contributes nothing. */
  lemma UnknownLabelIgnored(b: MultiLabelBinarizer, labels: seq<Member>, x: Member)
    requires x !in b.classes
    ensures b.FitTransform(labels + [x]) == b.FitTransform(labels)
  {
    var m := b.ClassToIndex();
    ClassToIndexSpec(b);
    LabelIndicesSpec(m, labels);
    LabelIndicesSpec(m, labels + [x]);
    assert LabelIndices(m, labels + [x]) == LabelIndices(m, labels);
    assert b.FitTransform(labels) == DenseRow(|b.classes|, LabelIndices(m, labels));
  }
}
