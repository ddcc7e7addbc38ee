/** Reading the multi-column data file: a header line of column names and
    data rows, grouped into the positions (first column) and one energy
    column per remaining name. Lines arrive already split into tokens and
    the data tokens already converted to numbers. */
module InputFile {

  /** The data rows with at least n entries, in input order. */
  function KeptRows(rows: seq<seq<real>>, n: nat): (k: seq<seq<real>>)
    ensures |k| <= |rows|
    ensures forall i :: 0 <= i < |k| ==> |k[i]| >= n
  {
    if |rows| == 0 then []
    else
      var last := rows[|rows| - 1];
      KeptRows(rows[..|rows| - 1], n) + (if |last| >= n then [last] else [])
  }

  /** Column c of rows that all have more than c entries. */
  function Column(rows: seq<seq<real>>, c: nat): (col: seq<real>)
    requires forall i :: 0 <= i < |rows| ==> c < |rows[i]|
    ensures |col| == |rows|
  {
    seq(|rows|, i requires 0 <= i < |rows| => rows[i][c])
  }

  /** read_input_file: the header gives the names and the number of
      columns; with at least two columns, every row with at least that many
      entries adds its first entry to x and the next ones to the columns of
      ys. */
  method ReadInputFile(header: seq<string>, rows: seq<seq<real>>)
    returns (names: seq<string>, x: seq<real>, ys: seq<seq<real>>)
    ensures names == header
    ensures |header| <= 1 ==> x == [] && ys == []
    ensures |header| > 1 ==>
              var k := KeptRows(rows, |header|);
              && x == Column(k, 0)
              && |ys| == |header| - 1
              && forall c :: 0 <= c < |ys| ==> ys[c] == Column(k, c + 1)
  {
    names := header;
    var ncols := |names|;
    x := [];
    ys := [];
    if ncols > 1 {
      var y := 0;
      while y < ncols - 1
        invariant 0 <= y <= ncols - 1
        invariant |ys| == y
        invariant forall c :: 0 <= c < y ==> ys[c] == []
      {
        ys := ys + [[]];
        y := y + 1;
      }
      var r := 0;
      while r < |rows|
        invariant 0 <= r <= |rows|
        invariant |ys| == ncols - 1
        invariant x == Column(KeptRows(rows[..r], ncols), 0)
        invariant forall c :: 0 <= c < ncols - 1 ==> ys[c] == Column(KeptRows(rows[..r], ncols), c + 1)
      {
        var cols := rows[r];
        assert rows[..r + 1][..r] == rows[..r];
        ghost var before := KeptRows(rows[..r], ncols);
        if |cols| >= ncols {
          assert KeptRows(rows[..r + 1], ncols) == before + [cols];
          ColumnSnoc(before, cols, 0);
          x := x + [cols[0]];
          y := 0;
          while y < ncols - 1
            invariant 0 <= y <= ncols - 1
            invariant |ys| == ncols - 1
            invariant forall c :: 0 <= c < y ==> ys[c] == Column(before, c + 1) + [cols[c + 1]]
            invariant forall c :: y <= c < ncols - 1 ==> ys[c] == Column(before, c + 1)
          {
            ys := ys[y := ys[y] + [cols[y + 1]]];
            y := y + 1;
          }
          forall c | 0 <= c < ncols - 1
            ensures ys[c] == Column(KeptRows(rows[..r + 1], ncols), c + 1)
          {
            ColumnSnoc(before, cols, c + 1);
          }
        } else {
          assert KeptRows(rows[..r + 1], ncols) == before;
        }
        r := r + 1;
      }
      assert rows[..|rows|] == rows;
    }
  }

  // ---------------------------------------------------------------------
  // Properties of the grouping

  /** Appending a row appends its entry to every column. */
  lemma ColumnSnoc(rows: seq<seq<real>>, row: seq<real>, c: nat)
    requires forall i :: 0 <= i < |rows| ==> c < |rows[i]|
    requires c < |row|
    ensures Column(rows + [row], c) == Column(rows, c) + [row[c]]
  {
    var l, r := Column(rows + [row], c), Column(rows, c) + [row[c]];
    forall i | 0 <= i < |l| ensures l[i] == r[i] {
      if i < |rows| {
        assert (rows + [row])[i] == rows[i];
      }
    }
  }

  /** Filtering distributes over concatenation, so kept rows stay in
      input order. */
  lemma {:induction false} KeptRowsAppend(a: seq<seq<real>>, b: seq<seq<real>>, n: nat)
    ensures KeptRows(a + b, n) == KeptRows(a, n) + KeptRows(b, n)
    decreases |b|
  {
    if |b| == 0 {
      assert a + b == a;
    } else {
      var b0, last := b[..|b| - 1], b[|b| - 1];
      assert (a + b)[..|a + b| - 1] == a + b0;
      assert (a + b)[|a + b| - 1] == last;
      KeptRowsAppend(a, b0, n);
    }
  }

  /** A row is kept exactly when it occurs in the input with at least n
      entries. */
  lemma {:induction false} KeptRowsMembership(rows: seq<seq<real>>, n: nat, row: seq<real>)
    ensures row in KeptRows(rows, n) <==> row in rows && |row| >= n
  {
    if |rows| > 0 {
      var init, last := rows[..|rows| - 1], rows[|rows| - 1];
      assert rows == init + [last];
      KeptRowsMembership(init, n, row);
    }
  }

  /** The columns give back every kept row: its first entry from x, the
      next n - 1 from the columns of ys, and nothing of its extra entries. */
  lemma ColumnsRebuildRows(rows: seq<seq<real>>, n: nat, i: nat)
    requires n >= 1
    requires i < |KeptRows(rows, n)|
    ensures var k := KeptRows(rows, n);
            [Column(k, 0)[i]] + seq(n - 1, c requires 0 <= c < n - 1 => Column(k, c + 1)[i]) == k[i][..n]
  {
    var k := KeptRows(rows, n);
    var l := [Column(k, 0)[i]] + seq(n - 1, c requires 0 <= c < n - 1 => Column(k, c + 1)[i]);
    forall j | 0 <= j < n ensures l[j] == k[i][j] {
      if j > 0 {
        assert l[j] == Column(k, j)[i];
      }
    }
  }
}
