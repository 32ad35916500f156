/** `drop_duplicates(subset=...)` with pandas' default `keep="first"`: a row is
    kept exactly when no earlier row has the same values in the subset columns.
    Missing is equal to Missing here, as in pandas' duplicate detection. */
module Dedup {
  import opened Tables

  /** The key tuples that occur in `rows`. */
  function Keys(rows: seq<Row>, subset: seq<string>): set<seq<Value>> {
    set r | r in rows :: KeyOf(r, subset)
  }

  /** Row `i` is the first row with its key tuple. */
  predicate FirstOccurrence(rows: seq<Row>, subset: seq<string>, i: nat)
    requires i < |rows|
  {
    forall j | 0 <= j < i :: KeyOf(rows[j], subset) != KeyOf(rows[i], subset)
  }

  /** Scan from the front, remembering the key tuples already kept. */
  function DedupFrom(rows: seq<Row>, subset: seq<string>, seen: set<seq<Value>>): seq<Row>
    decreases |rows|
  {
    if rows == [] then []
    else
      var k := KeyOf(rows[0], subset);
      if k in seen then DedupFrom(rows[1..], subset, seen)
      else [rows[0]] + DedupFrom(rows[1..], subset, seen + {k})
  }

  function DropDuplicateRows(rows: seq<Row>, subset: seq<string>): seq<Row> {
    DedupFrom(rows, subset, {})
  }

  /** The table-level operation: a subset column that is absent raises KeyError. */
  function DropDuplicates(t: Table, subset: seq<string>): (r: Result<Table>)
    ensures r.Err? <==> exists c | c in subset :: c !in t.columns
    ensures r.Err? ==> r.error.KeyError? && r.error.column in subset && r.error.column !in t.columns
    ensures r.Ok? ==> && r.value.columns == t.columns
                      && DistinctKeys(r.value.rows, subset)
                      && IsSubsequence(r.value.rows, t.rows)
  {
    DropDuplicatesDistinct(t.rows, subset);
    match FirstAbsent(subset, t.columns)
    case Some(c) => Err(KeyError(c))
    case None => Ok(Table(t.columns, DropDuplicateRows(t.rows, subset)))
  }

  lemma KeysCons(r: Row, rest: seq<Row>, subset: seq<string>)
    ensures Keys([r] + rest, subset) == {KeyOf(r, subset)} + Keys(rest, subset)
  {
    var rows := [r] + rest;
    forall k | k in Keys(rows, subset) ensures k in {KeyOf(r, subset)} + Keys(rest, subset) {
      var x :| x in rows && KeyOf(x, subset) == k;
      if x != r { assert x in rest; }
    }
  }

  lemma {:induction false} DedupFromKeys(rows: seq<Row>, subset: seq<string>, seen: set<seq<Value>>)
    ensures Keys(DedupFrom(rows, subset, seen), subset) == Keys(rows, subset) - seen
    decreases |rows|
  {
    if rows == [] {
      assert Keys(rows, subset) == {};
    } else {
      var k := KeyOf(rows[0], subset);
      var rest := rows[1..];
      assert rows == [rows[0]] + rest;
      KeysCons(rows[0], rest, subset);
      if k in seen {
        DedupFromKeys(rest, subset, seen);
      } else {
        DedupFromKeys(rest, subset, seen + {k});
        KeysCons(rows[0], DedupFrom(rest, subset, seen + {k}), subset);
      }
    }
  }

  lemma {:induction false} DedupFromCount(rows: seq<Row>, subset: seq<string>, seen: set<seq<Value>>)
    ensures |DedupFrom(rows, subset, seen)| == |Keys(rows, subset) - seen|
    decreases |rows|
  {
    if rows == [] {
      assert Keys(rows, subset) == {};
    } else {
      var k := KeyOf(rows[0], subset);
      var rest := rows[1..];
      assert rows == [rows[0]] + rest;
      KeysCons(rows[0], rest, subset);
      if k in seen {
        DedupFromCount(rest, subset, seen);
        assert Keys(rows, subset) - seen == Keys(rest, subset) - seen;
      } else {
        DedupFromCount(rest, subset, seen + {k});
        assert Keys(rows, subset) - seen == {k} + (Keys(rest, subset) - (seen + {k}));
      }
    }
  }

  lemma {:induction false} DedupFromDistinct(rows: seq<Row>, subset: seq<string>, seen: set<seq<Value>>)
    ensures DistinctKeys(DedupFrom(rows, subset, seen), subset)
    ensures Keys(DedupFrom(rows, subset, seen), subset) !! seen
    decreases |rows|
  {
    var out := DedupFrom(rows, subset, seen);
    if rows == [] {
    } else {
      var k := KeyOf(rows[0], subset);
      var rest := rows[1..];
      if k in seen {
        DedupFromDistinct(rest, subset, seen);
      } else {
        var tail := DedupFrom(rest, subset, seen + {k});
        DedupFromDistinct(rest, subset, seen + {k});
        assert out == [rows[0]] + tail;
        KeysCons(rows[0], tail, subset);
        forall i, j | 0 <= i < j < |out| ensures KeyOf(out[i], subset) != KeyOf(out[j], subset) {
          if i == 0 {
            assert out[j] == tail[j - 1];
            assert KeyOf(out[j], subset) in Keys(tail, subset);
          } else {
            assert out[i] == tail[i - 1] && out[j] == tail[j - 1];
          }
        }
      }
    }
  }

  lemma {:induction false} DedupFromSubsequence(rows: seq<Row>, subset: seq<string>, seen: set<seq<Value>>)
    ensures IsSubsequence(DedupFrom(rows, subset, seen), rows)
    decreases |rows|
  {
    if rows != [] {
      var k := KeyOf(rows[0], subset);
      var seen' := if k in seen then seen else seen + {k};
      DedupFromSubsequence(rows[1..], subset, seen');
      DedupFromCount(rows[1..], subset, seen');
      KeysBound(rows[1..], subset);
      var out := DedupFrom(rows, subset, seen);
      if k !in seen {
        assert out[0] == rows[0] && out[1..] == DedupFrom(rows[1..], subset, seen');
      }
    }
  }

  lemma {:induction false} DedupFromKeepsFirst(rows: seq<Row>, subset: seq<string>, seen: set<seq<Value>>, i: nat)
    requires i < |rows| && FirstOccurrence(rows, subset, i) && KeyOf(rows[i], subset) !in seen
    ensures rows[i] in DedupFrom(rows, subset, seen)
    decreases |rows|
  {
    var k := KeyOf(rows[0], subset);
    if i > 0 {
      var seen' := if k in seen then seen else seen + {k};
      assert KeyOf(rows[0], subset) != KeyOf(rows[i], subset);
      assert FirstOccurrence(rows[1..], subset, i - 1) by {
        forall j | 0 <= j < i - 1
          ensures KeyOf(rows[1..][j], subset) != KeyOf(rows[1..][i - 1], subset)
        {
          assert rows[1..][j] == rows[j + 1];
        }
      }
      DedupFromKeepsFirst(rows[1..], subset, seen', i - 1);
    }
  }

  lemma {:induction false} DedupFromIdentity(rows: seq<Row>, subset: seq<string>, seen: set<seq<Value>>)
    requires DistinctKeys(rows, subset) && Keys(rows, subset) !! seen
    ensures DedupFrom(rows, subset, seen) == rows
    decreases |rows|
  {
    if rows != [] {
      var k := KeyOf(rows[0], subset);
      var rest := rows[1..];
      assert rows == [rows[0]] + rest;
      KeysCons(rows[0], rest, subset);
      assert DistinctKeys(rest, subset) by {
        forall i, j | 0 <= i < j < |rest| ensures KeyOf(rest[i], subset) != KeyOf(rest[j], subset) {
          assert rest[i] == rows[i + 1] && rest[j] == rows[j + 1];
        }
      }
      forall x | x in rest ensures KeyOf(x, subset) != k {
        var m :| 0 <= m < |rest| && rest[m] == x;
        assert rows[m + 1] == x;
      }
      DedupFromIdentity(rest, subset, seen + {k});
    }
  }

  /** After deduplication no two rows share a key tuple, and the output is a
      subsequence of the input (kept rows unchanged, in their order). */
  lemma DropDuplicatesDistinct(rows: seq<Row>, subset: seq<string>)
    ensures DistinctKeys(DropDuplicateRows(rows, subset), subset)
    ensures IsSubsequence(DropDuplicateRows(rows, subset), rows)
  {
    DedupFromDistinct(rows, subset, {});
    DedupFromSubsequence(rows, subset, {});
  }

  /** The first row of every key tuple is the one that is kept. */
  lemma DropDuplicatesKeepsFirst(rows: seq<Row>, subset: seq<string>, i: nat)
    requires i < |rows| && FirstOccurrence(rows, subset, i)
    ensures rows[i] in DropDuplicateRows(rows, subset)
  {
    DedupFromKeepsFirst(rows, subset, {}, i);
  }

  /** No key tuple is lost, and what is removed is one row per repeated key:
      the removed count `before - after` is `|rows|` minus the number of distinct keys. */
  lemma DropDuplicatesCount(rows: seq<Row>, subset: seq<string>)
    ensures Keys(DropDuplicateRows(rows, subset), subset) == Keys(rows, subset)
    ensures |DropDuplicateRows(rows, subset)| == |Keys(rows, subset)| <= |rows|
  {
    DedupFromKeys(rows, subset, {});
    DedupFromCount(rows, subset, {});
    KeysBound(rows, subset);
  }

  lemma {:induction false} KeysBound(rows: seq<Row>, subset: seq<string>)
    ensures |Keys(rows, subset)| <= |rows|
    decreases |rows|
  {
    if rows == [] {
      assert Keys(rows, subset) == {};
    } else {
      assert rows == [rows[0]] + rows[1..];
      KeysCons(rows[0], rows[1..], subset);
      KeysBound(rows[1..], subset);
    }
  }

  /** A table whose keys are already distinct is left as it is. */
  lemma DropDuplicatesOfDistinct(rows: seq<Row>, subset: seq<string>)
    requires DistinctKeys(rows, subset)
    ensures DropDuplicateRows(rows, subset) == rows
  {
    DedupFromIdentity(rows, subset, {});
  }

  /** Deduplicating twice is deduplicating once. */
  lemma DropDuplicatesIdempotent(rows: seq<Row>, subset: seq<string>)
    ensures DropDuplicateRows(DropDuplicateRows(rows, subset), subset) == DropDuplicateRows(rows, subset)
  {
    DropDuplicatesDistinct(rows, subset);
    DropDuplicatesOfDistinct(DropDuplicateRows(rows, subset), subset);
  }

  /** The example of rows [{id 1, v a}, {id 1, v b}, {id 2, v c}] keyed on id. */
  lemma DropDuplicatesExample()
    ensures
      var a := map["id" := Int(1), "v" := Str("a")];
      var b := map["id" := Int(1), "v" := Str("b")];
      var c := map["id" := Int(2), "v" := Str("c")];
      DropDuplicateRows([a, b, c], ["id"]) == [a, c]
  {
    var a := map["id" := Int(1), "v" := Str("a")];
    var b := map["id" := Int(1), "v" := Str("b")];
    var c := map["id" := Int(2), "v" := Str("c")];
    assert KeyOf(a, ["id"]) == [Int(1)] == KeyOf(b, ["id"]);
    assert KeyOf(c, ["id"]) == [Int(2)];
    assert [a, b, c][1..] == [b, c] && [b, c][1..] == [c];
  }
}
