/**
 * The vocabulary record the reader builds from the e-reader database: three
 * parallel columns (stems, usages, langs), filled one query row at a time.
 */
module Vocab {

  /** One row of the vocabulary query: a stem, its largest usage count, its language tag. */
  datatype Row = Row(stem: string, usage: int, lang: string)

  /** The record `{"stems": [...], "usages": [...], "langs": [...]}`. */
  datatype Vocab = Vocab(stems: seq<string>, usages: seq<int>, langs: seq<string>) {

    /** The three columns are aligned: entry j is (stems[j], usages[j], langs[j]). */
    predicate WellFormed() {
      |usages| == |stems| && |langs| == |stems|
    }

    function Size(): nat {
      |stems|
    }
  }

  const Empty: Vocab := Vocab([], [], [])

  /** Reads an aligned record back as rows; the inverse of the transposition. */
  function RowsOf(v: Vocab): (rows: seq<Row>)
    requires v.WellFormed()
    ensures |rows| == v.Size()
  {
    seq(v.Size(), j requires 0 <= j < v.Size() => Row(v.stems[j], v.usages[j], v.langs[j]))
  }

  /** Two aligned records with the same rows are the same record. */
  lemma {:induction false} RowsOfInjective(v: Vocab, w: Vocab)
    requires v.WellFormed() && w.WellFormed()
    requires RowsOf(v) == RowsOf(w)
    ensures v == w
  {
    forall j | 0 <= j < v.Size()
      ensures v.stems[j] == w.stems[j] && v.usages[j] == w.usages[j] && v.langs[j] == w.langs[j]
    {
      assert RowsOf(v)[j] == RowsOf(w)[j];
    }
  }

  /**
   * The row loop of the reader: appends field 0, 1 and 2 of every query row
   * to the stems, usages and langs columns, in row order.
   */
  method ReadVocab(rows: seq<Row>) returns (v: Vocab)
    ensures v.WellFormed() && v.Size() == |rows|
    ensures forall j :: 0 <= j < |rows| ==>
      v.stems[j] == rows[j].stem && v.usages[j] == rows[j].usage && v.langs[j] == rows[j].lang
    ensures RowsOf(v) == rows
  {
    var stems: seq<string> := [];
    var usages: seq<int> := [];
    var langs: seq<string> := [];
    for j := 0 to |rows|
      invariant |stems| == j && |usages| == j && |langs| == j
      invariant forall i :: 0 <= i < j ==>
        stems[i] == rows[i].stem && usages[i] == rows[i].usage && langs[i] == rows[i].lang
    {
      stems := stems + [rows[j].stem];
      usages := usages + [rows[j].usage];
      langs := langs + [rows[j].lang];
    }
    v := Vocab(stems, usages, langs);
  }
}
