/**
  * The physical layout of a section's entry-data table and the two schema operations the
  * content service performs on it: finding the last block column and adding a column after it.
  */
module Schema {
  import opened Results
  import opened Strings
  import opened Seqs

  /** The attribute types the service declares columns with. */
  datatype ColumnType = PrimaryKey | Integer(notNull: bool) | Varchar | Text | Other(declaration: string)

  datatype Column = Column(name: string, ctype: ColumnType)

  datatype SchemaError = NoSuchColumn(column: string) | DuplicateColumn(column: string)

  /** The column names of a table, in table order. */
  function Names(cols: seq<Column>): (ns: seq<string>)
    ensures |ns| == |cols| && forall i :: 0 <= i < |cols| ==> ns[i] == cols[i].name
  {
    Map((c: Column) => c.name, cols)
  }

  /** Every column whose name contains this marker counts as a block column. */
  const BlockMarker := "block_"

  /** The column new block columns follow while a table has none yet. */
  const Sentinel := "version_id"

  /** The physical column that stores the block with handle `handle`. */
  function BlockColumnName(handle: string): string {
    BlockMarker + handle
  }

  /** The system columns before the block columns: primary key, entry and version references. */
  function SystemPrefix(): seq<Column> {
    [Column("id", PrimaryKey), Column("entry_id", Integer(true)), Column(Sentinel, Integer(true))]
  }

  /** The system columns after the block columns: the two audit timestamps and the uid. */
  function SystemSuffix(): seq<Column> {
    [Column("date_created", Integer(false)), Column("date_updated", Integer(false)), Column("uid", Varchar)]
  }

  /** The columns a freshly created entry-data table has, in declaration order. */
  function SystemColumns(): seq<Column> {
    SystemPrefix() + SystemSuffix()
  }

  /**
    * The layout every entry-data table keeps: the system prefix, then block columns
    * (each named `block_<handle>`), then the system suffix, with no column name twice.
    */
  predicate WellFormed(cols: seq<Column>) {
    && |cols| >= 6
    && cols[..3] == SystemPrefix()
    && cols[|cols| - 3..] == SystemSuffix()
    && (forall i :: 3 <= i < |cols| - 3 ==> IsPrefix(BlockMarker, cols[i].name))
    && NoDuplicates(Names(cols))
  }

  /** The block columns of a well-formed table, in table order. */
  function BlockColumns(cols: seq<Column>): seq<Column>
    requires WellFormed(cols)
  {
    cols[3..|cols| - 3]
  }

  /** The last name of `names` that contains the block marker, if any. */
  function LastMatch(names: seq<string>): (r: Option<string>)
    ensures r.None? <==> forall i :: 0 <= i < |names| ==> !Contains(names[i], BlockMarker)
    ensures r.Some? ==> exists k :: 0 <= k < |names| && names[k] == r.value && Contains(r.value, BlockMarker)
                                  && forall j :: k < j < |names| ==> !Contains(names[j], BlockMarker)
  {
    if names == [] then None
    else if Contains(names[|names| - 1], BlockMarker) then Some(names[|names| - 1])
    else LastMatch(names[..|names| - 1])
  }

  /**
    * `_getLastBlockColumnName`: the last column in table order whose name contains
    * `block_` anywhere (a substring test, not a prefix test), or `version_id` when none does.
    */
  function LastBlockColumn(names: seq<string>): (r: string)
    ensures Sentinel in names ==> r in names
    ensures r == Sentinel || Contains(r, BlockMarker)
  {
    match LastMatch(names)
    case Some(n) => if n == "" then Sentinel else n
    case None => Sentinel
  }

  /**
    * A name that contains `block_` is never empty and is never `version_id`, so the loose
    * `== null` test after the loop fires exactly when no column matched.
    */
  lemma FallbackOnlyWithoutMatch(names: seq<string>)
    ensures LastMatch(names).Some? ==> LastMatch(names).value != ""
    ensures LastMatch(names).Some? ==> LastBlockColumn(names) == LastMatch(names).value
    ensures LastBlockColumn(names) == Sentinel <==> LastMatch(names).None?
  {
    if LastMatch(names).Some? && Contains(Sentinel, BlockMarker) {
      ContainsFirstChar(Sentinel, BlockMarker);
      assert false;
    }
  }

  /** The lookup as the source writes it: one forward pass remembering the latest match. */
  method FindLastBlockColumn(names: seq<string>) returns (r: string)
    ensures r == LastBlockColumn(names)
  {
    var lastMatch: Option<string> := None;
    var i := 0;
    while i < |names|
      invariant i <= |names|
      invariant lastMatch == LastMatch(names[..i])
    {
      if Contains(names[i], BlockMarker) {
        lastMatch := Some(names[i]);
      }
      assert names[..i + 1][..i] == names[..i];
      i := i + 1;
    }
    assert names[..i] == names;
    r := if lastMatch.None? || lastMatch.value == "" then Sentinel else lastMatch.value;
  }

  /** Because the test is a substring test, a column that merely contains `block_` is matched. */
  lemma SubstringMatchExample()
    ensures LastBlockColumn(["id", "entry_id", "version_id", "old_block_x", "uid"]) == "old_block_x"
  {
    var names := ["id", "entry_id", "version_id", "old_block_x", "uid"];
    assert !Contains("uid", BlockMarker) by {
      if Contains("uid", BlockMarker) {
        ContainsFirstChar("uid", BlockMarker);
      }
    }
    assert names[..4][3] == "old_block_x";
    assert IsPrefix(BlockMarker, "old_block_x"[4..]);
    assert Contains("old_block_x"[4..], BlockMarker);
    assert Contains("old_block_x", BlockMarker);
  }

  /**
    * `addColumnAfter`: insert `col` right behind the first column named `after`. Fails when
    * the name is taken or `after` does not exist.
    */
  function AddColumnAfter(cols: seq<Column>, col: Column, after: string): (r: Result<seq<Column>, SchemaError>)
    ensures r.Failure? <==> col.name in Names(cols) || after !in Names(cols)
    ensures r.Success? ==> exists k :: 0 <= k < |cols| && cols[k].name == after
                                     && (forall j :: 0 <= j < k ==> cols[j].name != after)
                                     && r.value == cols[..k + 1] + [col] + cols[k + 1..]
    ensures r.Success? ==> col.name in Names(r.value)
  {
    if col.name in Names(cols) then Failure(DuplicateColumn(col.name))
    else if after !in Names(cols) then Failure(NoSuchColumn(after))
    else
      var k := IndexOf(Names(cols), after);
      var r := cols[..k + 1] + [col] + cols[k + 1..];
      assert Names(r)[k + 1] == col.name;
      Success(r)
  }

  /** No system column name contains the block marker. */
  lemma SystemNamesAreNotBlocks(cols: seq<Column>, i: nat)
    requires WellFormed(cols) && (i < 3 || |cols| - 3 <= i < |cols|)
    ensures !Contains(cols[i].name, BlockMarker)
  {
    var n := cols[i].name;
    if i < 3 {
      assert cols[..3][i] == cols[i];
    } else {
      assert cols[|cols| - 3..][i - (|cols| - 3)] == cols[i];
    }
    assert 'b' !in n;
    if Contains(n, BlockMarker) {
      ContainsFirstChar(n, BlockMarker);
    }
  }

  /** In a well-formed table the lookup yields the last block column, or `version_id`. */
  lemma WellFormedLastBlockColumn(cols: seq<Column>)
    requires WellFormed(cols)
    ensures |BlockColumns(cols)| == 0 ==> LastBlockColumn(Names(cols)) == Sentinel
    ensures |BlockColumns(cols)| > 0 ==> LastBlockColumn(Names(cols)) == cols[|cols| - 4].name
  {
    var names := Names(cols);
    forall j | |cols| - 3 <= j < |cols|
      ensures !Contains(names[j], BlockMarker)
    {
      SystemNamesAreNotBlocks(cols, j);
    }
    if |BlockColumns(cols)| == 0 {
      forall j | 0 <= j < |names|
        ensures !Contains(names[j], BlockMarker)
      {
        SystemNamesAreNotBlocks(cols, j);
      }
    } else {
      var last := |cols| - 4;
      assert Contains(names[last], BlockMarker) by {
        assert IsPrefix(BlockMarker, names[last]);
      }
      LastMatchIsLastContaining(names, last);
      FallbackOnlyWithoutMatch(names);
    }
  }

  /** When `names[last]` is a match and nothing after it is, it is the last match. */
  lemma LastMatchIsLastContaining(names: seq<string>, last: nat)
    requires last < |names| && Contains(names[last], BlockMarker)
    requires forall j :: last < j < |names| ==> !Contains(names[j], BlockMarker)
    ensures LastMatch(names) == Some(names[last])
  {
    var m := LastMatch(names);
    var k :| 0 <= k < |names| && names[k] == m.value && Contains(m.value, BlockMarker)
             && forall j :: k < j < |names| ==> !Contains(names[j], BlockMarker);
    if k != last {
      assert false;
    }
  }

  /** Inserting a fresh name into a sequence of distinct names keeps the names distinct. */
  lemma InsertKeepsDistinct(ns: seq<string>, k: nat, x: string)
    requires NoDuplicates(ns) && x !in ns && k <= |ns|
    ensures NoDuplicates(ns[..k] + [x] + ns[k..])
  {
    var rn := ns[..k] + [x] + ns[k..];
    forall i, j | 0 <= i < j < |rn|
      ensures rn[i] != rn[j]
    {
      if i == k {
        assert rn[j] == ns[j - 1];
      } else if j == k {
        assert rn[i] == ns[i];
      } else {
        var i' := if i < k then i else i - 1;
        var j' := if j < k then j else j - 1;
        assert rn[i] == ns[i'] && rn[j] == ns[j'];
      }
    }
  }

  lemma NamesOfInsert(cols: seq<Column>, k: nat, col: Column)
    requires k <= |cols|
    ensures Names(cols[..k] + [col] + cols[k..]) == Names(cols)[..k] + [col.name] + Names(cols)[k..]
  {
    var a := Names(cols[..k] + [col] + cols[k..]);
    var b := Names(cols)[..k] + [col.name] + Names(cols)[k..];
    assert |a| == |b|;
    forall i | 0 <= i < |a|
      ensures a[i] == b[i]
    {
      if i < k {
        assert a[i] == cols[i].name;
      } else if i > k {
        assert a[i] == cols[i - 1].name;
      }
    }
  }

  /** The column the lookup returns sits at index 2 (`version_id`) or at the last block column. */
  lemma LookupPosition(cols: seq<Column>) returns (k: nat)
    requires WellFormed(cols)
    ensures k == (if |BlockColumns(cols)| == 0 then 2 else |cols| - 4)
    ensures k < |cols| && Names(cols)[k] == LastBlockColumn(Names(cols))
    ensures IndexOf(Names(cols), LastBlockColumn(Names(cols))) == k
  {
    WellFormedLastBlockColumn(cols);
    k := if |BlockColumns(cols)| == 0 then 2 else |cols| - 4;
    assert Names(cols)[k] == LastBlockColumn(Names(cols));
    IndexOfUnique(Names(cols), k);
  }

  lemma InsertedLayout(cols: seq<Column>, k: nat, col: Column)
    requires WellFormed(cols) && IsPrefix(BlockMarker, col.name)
    requires k == (if |BlockColumns(cols)| == 0 then 2 else |cols| - 4)
    requires NoDuplicates(Names(cols[..k + 1] + [col] + cols[k + 1..]))
    ensures WellFormed(cols[..k + 1] + [col] + cols[k + 1..])
    ensures BlockColumns(cols[..k + 1] + [col] + cols[k + 1..]) == BlockColumns(cols) + [col]
  {
    var r := cols[..k + 1] + [col] + cols[k + 1..];
    assert r[..3] == cols[..3];
    assert r[|r| - 3..] == cols[|cols| - 3..];
    assert r[3..|r| - 3] == cols[3..|cols| - 3] + [col];
  }

  /**
    * Adding block column `col` after the looked-up column keeps the layout: the new column
    * becomes the last block column, and every other column keeps its relative order.
    */
  lemma AddBlockColumnKeepsLayout(cols: seq<Column>, col: Column)
    requires WellFormed(cols) && IsPrefix(BlockMarker, col.name) && col.name !in Names(cols)
    ensures AddColumnAfter(cols, col, LastBlockColumn(Names(cols))).Success?
    ensures var r := AddColumnAfter(cols, col, LastBlockColumn(Names(cols))).value;
            WellFormed(r) && BlockColumns(r) == BlockColumns(cols) + [col]
  {
    var k := LookupPosition(cols);
    var r := AddColumnAfter(cols, col, LastBlockColumn(Names(cols))).value;
    assert r == cols[..k + 1] + [col] + cols[k + 1..];
    NamesOfInsert(cols, k + 1, col);
    InsertKeepsDistinct(Names(cols), k + 1, col.name);
    InsertedLayout(cols, k, col);
  }

  /** A freshly created table is well-formed, has no block columns, and has these six names. */
  lemma SystemColumnsWellFormed()
    ensures WellFormed(SystemColumns()) && BlockColumns(SystemColumns()) == []
    ensures Names(SystemColumns()) == ["id", "entry_id", "version_id", "date_created", "date_updated", "uid"]
  {
    var ns := Names(SystemColumns());
    assert ns == ["id", "entry_id", "version_id", "date_created", "date_updated", "uid"];
  }
}
