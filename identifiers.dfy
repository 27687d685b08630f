/**
 Fully qualified warehouse identifiers: a dataset is named
 "<project>.<dataset>", a table "<project>.<dataset>.<table>". The project
 is the one the warehouse client is bound to, passed in here as a value.
 */
module Identifiers {

  /** The identifier of dataset `name` in `project`. */
  function DatasetId(project: string, name: string): (id: string)
    ensures |id| == |project| + 1 + |name|
    ensures id[..|project|] == project && id[|project|] == '.' && id[|project| + 1..] == name
  {
    project + "." + name
  }

  /** The identifier of table `tableName` in dataset `datasetId` of `project`. */
  function TableId(project: string, datasetId: string, tableName: string): (id: string)
    ensures |id| == |project| + 1 + |datasetId| + 1 + |tableName|
    ensures id[..|project|] == project && id[|project|] == '.'
    ensures id[|project| + 1..|project| + 1 + |datasetId|] == datasetId
    ensures id[|project| + 1 + |datasetId|] == '.' && id[|project| + 2 + |datasetId|..] == tableName
  {
    project + "." + datasetId + "." + tableName
  }

  /** `s` cut at every occurrence of `sep`; it undoes joining with `sep` when no part contains `sep`. */
  function Split(s: string, sep: char): (parts: seq<string>)
    ensures |parts| >= 1
    ensures sep !in s ==> parts == [s]
  {
    if |s| == 0 then [""]
    else
      var rest := Split(s[1..], sep);
      if s[0] == sep then [""] + rest
      else assert sep !in s ==> [s[0]] + s[1..] == s; [[s[0]] + rest[0]] + rest[1..]
  }

  /** Splitting at a separator that does not occur in the first part recovers that part. */
  lemma {:induction false} SplitAfter(a: string, sep: char, b: string)
    requires sep !in a
    ensures Split(a + [sep] + b, sep) == [a] + Split(b, sep)
  {
    var s := a + [sep] + b;
    if |a| == 0 {
      assert s[1..] == b;
    } else {
      assert s[1..] == a[1..] + [sep] + b;
      SplitAfter(a[1..], sep, b);
      assert [a[0]] + a[1..] == a;
    }
  }

  /** A dataset identifier splits back into its project and dataset name. */
  lemma DatasetIdParts(project: string, name: string)
    requires '.' !in project && '.' !in name
    ensures Split(DatasetId(project, name), '.') == [project, name]
  {
    SplitAfter(project, '.', name);
  }

  /** A table identifier splits back into its project, dataset and table name. */
  lemma TableIdParts(project: string, datasetId: string, tableName: string)
    requires '.' !in project && '.' !in datasetId && '.' !in tableName
    ensures Split(TableId(project, datasetId, tableName), '.') == [project, datasetId, tableName]
  {
    var rest := datasetId + "." + tableName;
    assert TableId(project, datasetId, tableName) == project + ['.'] + rest;
    SplitAfter(project, '.', rest);
    SplitAfter(datasetId, '.', tableName);
  }
}
