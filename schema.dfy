/**
 Column definitions of a warehouse table and the additive migration that
 grows a table's column list with the columns it does not have yet.

 The migration is a list difference by name followed by an append: the
 columns already present are never edited, reordered or removed, and a
 desired column whose name is already taken is ignored even when its type,
 mode or description differ.
 */
module Schema {

  /** One column definition: the warehouse client's SchemaField(name, field_type, mode, description). */
  datatype Field = Field(name: string, fieldType: string, mode: string, description: string)

  /** The column names of `fields`, in order. */
  function Names(fields: seq<Field>): (names: seq<string>)
    ensures |names| == |fields|
    ensures forall i :: 0 <= i < |fields| ==> names[i] == fields[i].name
  {
    seq(|fields|, i requires 0 <= i < |fields| => fields[i].name)
  }

  /** No name occurs twice in `names`. */
  predicate Unique(names: seq<string>)
  {
    forall i, j :: 0 <= i < j < |names| ==> names[i] != names[j]
  }

  /**
   The fields of `desired` whose name is not among `currentNames`, in the
   order of `desired`. Only the current names are consulted: two desired
   fields sharing a new name are both kept.
   */
  function Missing(currentNames: seq<string>, desired: seq<Field>): (added: seq<Field>)
    ensures |added| <= |desired|
    ensures forall f :: f in added <==> f in desired && f.name !in currentNames
    ensures added == [] <==> forall f :: f in desired ==> f.name in currentNames
  {
    if |desired| == 0 then []
    else if desired[0].name in currentNames then Missing(currentNames, desired[1..])
    else [desired[0]] + Missing(currentNames, desired[1..])
  }

  /** The column list after migrating `current` towards `desired`. */
  function Migrated(current: seq<Field>, desired: seq<Field>): (migrated: seq<Field>)
    ensures current <= migrated
    ensures forall f :: f in migrated <==> f in current || (f in desired && f.name !in Names(current))
  {
    current + Missing(Names(current), desired)
  }

  /** Every index of `s` moved up by one. */
  function Shift(s: seq<nat>): (shifted: seq<nat>)
  {
    seq(|s|, k requires 0 <= k < |s| => s[k] + 1)
  }

  /** The indices of `desired` whose field name is not among `currentNames`, in increasing order. */
  function NewIndices(currentNames: seq<string>, desired: seq<Field>): (indices: seq<nat>)
  {
    if |desired| == 0 then []
    else
      var rest := Shift(NewIndices(currentNames, desired[1..]));
      if desired[0].name in currentNames then rest else [0] + rest
  }

  /** The added fields are the desired fields at the new indices, one for one. */
  lemma {:induction false} MissingAtNewIndices(currentNames: seq<string>, desired: seq<Field>)
    ensures |NewIndices(currentNames, desired)| == |Missing(currentNames, desired)|
    ensures forall k :: 0 <= k < |NewIndices(currentNames, desired)| ==>
      NewIndices(currentNames, desired)[k] < |desired| &&
      Missing(currentNames, desired)[k] == desired[NewIndices(currentNames, desired)[k]]
  {
    if |desired| != 0 {
      var tail := desired[1..];
      MissingAtNewIndices(currentNames, tail);
      var rest := NewIndices(currentNames, tail);
      var restAdded := Missing(currentNames, tail);
      var shifted := Shift(rest);
      forall k | 0 <= k < |shifted| ensures shifted[k] < |desired| && restAdded[k] == desired[shifted[k]] {
        assert restAdded[k] == tail[rest[k]];
      }
      if desired[0].name !in currentNames {
        var idx := [0] + shifted;
        var added := [desired[0]] + restAdded;
        forall k | 1 <= k < |idx| ensures idx[k] < |desired| && added[k] == desired[idx[k]] {
          assert idx[k] == shifted[k - 1] && added[k] == restAdded[k - 1];
        }
      }
    }
  }

  /** The new indices are strictly increasing. */
  lemma {:induction false} NewIndicesIncreasing(currentNames: seq<string>, desired: seq<Field>)
    ensures forall j, k :: 0 <= j < k < |NewIndices(currentNames, desired)| ==>
      NewIndices(currentNames, desired)[j] < NewIndices(currentNames, desired)[k]
  {
    if |desired| != 0 {
      NewIndicesIncreasing(currentNames, desired[1..]);
    }
  }

  /** An index is among the new indices exactly when the field there has a new name. */
  lemma {:induction false} NewIndicesComplete(currentNames: seq<string>, desired: seq<Field>)
    ensures forall i :: 0 <= i < |desired| ==> (i in NewIndices(currentNames, desired) <==> desired[i].name !in currentNames)
  {
    if |desired| != 0 {
      var tail := desired[1..];
      NewIndicesComplete(currentNames, tail);
      var rest := NewIndices(currentNames, tail);
      var shifted := Shift(rest);
      forall i | 1 <= i < |desired| ensures i in shifted <==> tail[i - 1].name !in currentNames {
        if i in shifted {
          var k :| 0 <= k < |shifted| && shifted[k] == i;
          assert rest[k] == i - 1;
        }
        if tail[i - 1].name !in currentNames {
          var k :| 0 <= k < |rest| && rest[k] == i - 1;
          assert shifted[k] == i;
        }
      }
      assert 0 !in shifted;
    }
  }

  /** When no desired name is present yet, every desired field is added, duplicates included. */
  lemma {:induction false} MissingAllNew(currentNames: seq<string>, desired: seq<Field>)
    requires forall f :: f in desired ==> f.name !in currentNames
    ensures Missing(currentNames, desired) == desired
  {
    if |desired| != 0 {
      assert forall f :: f in desired[1..] ==> f in desired;
      MissingAllNew(currentNames, desired[1..]);
      assert [desired[0]] + desired[1..] == desired;
    }
  }

  /**
   The existing columns are an unchanged prefix of the migrated list, the
   rest is exactly the missing part, and the length adds up.
   */
  lemma MigratedExtends(current: seq<Field>, desired: seq<Field>)
    ensures |Migrated(current, desired)| == |current| + |Missing(Names(current), desired)|
    ensures Migrated(current, desired)[..|current|] == current
    ensures Migrated(current, desired)[|current|..] == Missing(Names(current), desired)
    ensures Missing(Names(current), desired) == [] ==> Migrated(current, desired) == current
  {
  }

  /**
   A desired field whose name already names a column, but which differs
   from every column, does not end up in the migrated list.
   */
  lemma RedefinitionIgnored(current: seq<Field>, desired: seq<Field>, f: Field)
    requires f in desired && f !in current
    requires f.name in Names(current)
    ensures f !in Migrated(current, desired)
    ensures Migrated(current, desired)[..|current|] == current
  {
  }

  /** Every name of `fields` comes from one of its fields, and the other way round. */
  lemma NamesMembership(fields: seq<Field>)
    ensures forall f :: f in fields ==> f.name in Names(fields)
    ensures forall n :: n in Names(fields) ==> exists f :: f in fields && f.name == n
  {
    forall f | f in fields ensures f.name in Names(fields) {
      var i :| 0 <= i < |fields| && fields[i] == f;
      assert Names(fields)[i] == f.name;
    }
  }

  /** Migrating the migrated list again with the same desired fields adds nothing. */
  lemma MigrationIdempotent(current: seq<Field>, desired: seq<Field>)
    ensures Missing(Names(Migrated(current, desired)), desired) == []
    ensures Migrated(Migrated(current, desired), desired) == Migrated(current, desired)
  {
    var migrated := Migrated(current, desired);
    NamesMembership(migrated);
    forall f | f in desired ensures f.name in Names(migrated) {
      if f.name in Names(current) {
        var i :| 0 <= i < |current| && Names(current)[i] == f.name;
        assert Names(migrated)[i] == f.name;
      } else {
        assert f in migrated;
      }
    }
  }

  /** If the current and the desired names are each unique, so are the migrated names. */
  lemma MigrationKeepsNamesUnique(current: seq<Field>, desired: seq<Field>)
    requires Unique(Names(current)) && Unique(Names(desired))
    ensures Unique(Names(Migrated(current, desired)))
  {
    var added := Missing(Names(current), desired);
    var idx := NewIndices(Names(current), desired);
    MissingAtNewIndices(Names(current), desired);
    NewIndicesIncreasing(Names(current), desired);
    var names := Names(Migrated(current, desired));
    var n := |current|;
    forall i, j | 0 <= i < j < |names| ensures names[i] != names[j] {
      if j < n {
        assert names[i] == Names(current)[i] && names[j] == Names(current)[j];
      } else if i < n {
        assert added[j - n] in added;
        assert names[i] == Names(current)[i];
      } else {
        assert names[i] == desired[idx[i - n]].name && names[j] == desired[idx[j - n]].name;
        assert Names(desired)[idx[i - n]] == desired[idx[i - n]].name;
        assert Names(desired)[idx[j - n]] == desired[idx[j - n]].name;
      }
    }
  }

  /**
   Two desired fields that share a name not yet present are both appended,
   so the migrated names need not be unique.
   */
  lemma DuplicateNewNamesBothAppended(current: seq<Field>, f: Field, g: Field)
    requires f.name == g.name && f.name !in Names(current)
    ensures Migrated(current, [f, g]) == current + [f, g]
    ensures !Unique(Names(Migrated(current, [f, g])))
  {
    MissingAllNew(Names(current), [f, g]);
    var names := Names(current + [f, g]);
    assert names[|current|] == names[|current| + 1];
  }
}
