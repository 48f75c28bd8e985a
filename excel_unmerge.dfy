/** excel_auto_unmerge.py: every merged range of a worksheet is unmerged and
    the chosen attributes of its top-left cell are copied to every other cell
    of the range. A sheet is a grid of cells addressed by (row, column), each
    cell a map from attribute to value; cells never written hold the blank
    state. The value type `V` stands for whatever the attributes hold. The
    attributes are independent of one another: setting the value does not
    re-infer the data type, as openpyxl's value setter does. */
module ExcelUnmerge {

  /** The attributes the command line lets one inherit. */
  datatype Attr = Value | Alignment | Border | DataType | Fill | Font

  /** The default of `inherit`: the value only. */
  const DefaultInherit: seq<Attr> := [Value]

  /** A cell has every attribute. */
  predicate Total<V>(cell: map<Attr, V>)
  {
    forall a: Attr :: a in cell
  }

  /** A merged range by its bounds: columns `left..right`, rows `top..bottom`,
      both inclusive, as openpyxl's `bounds` gives them. */
  datatype Range = Range(left: int, top: int, right: int, bottom: int)
  {
    predicate WellFormed()
    {
      1 <= left <= right && 1 <= top <= bottom
    }

    predicate Contains(p: (int, int))
    {
      top <= p.0 <= bottom && left <= p.1 <= right
    }

    function Corner(): (int, int)
    {
      (top, left)
    }

    function Area(): int
    {
      (bottom - top + 1) * (right - left + 1)
    }
  }

  /** get_base_state: a copy of the named attributes of a cell (every cell of
      a valid sheet has them all). */
  function GetBaseState<V>(cell: map<Attr, V>, inherit: seq<Attr>): (state: map<Attr, V>)
    ensures forall a :: a in state <==> a in inherit && a in cell
    ensures forall a :: a in state ==> state[a] == cell[a]
  {
    map a | a in inherit && a in cell :: cell[a]
  }

  /** Copying a base state onto a cell gives it exactly the inherited
      attributes of the source, and leaves its other attributes alone. */
  lemma CopyInherited<V>(source: map<Attr, V>, target: map<Attr, V>, inherit: seq<Attr>)
    requires Total(source) && Total(target)
    ensures var r := target + GetBaseState(source, inherit);
      && Total(r)
      && (forall a :: a in inherit ==> r[a] == source[a])
      && (forall a :: a !in inherit ==> r[a] == target[a])
  {
  }

  /** The cells of rows `top..bottom` in order, each row from `left` to `right`:
      the order of the two nested loops. */
  function RectCells(top: int, bottom: int, left: int, right: int): (ps: seq<(int, int)>)
    decreases bottom - top
  {
    if bottom < top then [] else RectCells(top, bottom - 1, left, right) + RowCells(bottom, left, right)
  }

  function RowCells(row: int, left: int, right: int): (ps: seq<(int, int)>)
    ensures |ps| == if right < left then 0 else right - left + 1
    ensures forall k :: 0 <= k < |ps| ==> ps[k] == (row, left + k)
  {
    if right < left then [] else seq(right - left + 1, k requires 0 <= k <= right - left => (row, left + k))
  }

  /** The nested loops visit (rows) * (columns) cells. */
  lemma {:induction false} RectCellsLength(top: int, bottom: int, left: int, right: int)
    requires top <= bottom + 1 && left <= right + 1
    ensures |RectCells(top, bottom, left, right)| == (bottom - top + 1) * (right - left + 1)
    decreases bottom - top
  {
    if top <= bottom {
      RectCellsLength(top, bottom - 1, left, right);
      assert (bottom - top + 1) * (right - left + 1) == (bottom - 1 - top + 1) * (right - left + 1) + (right - left + 1);
    }
  }

  /** The cells visited are exactly those of the rectangle. */
  lemma {:induction false} RectCellsMembers(top: int, bottom: int, left: int, right: int)
    ensures forall p :: p in RectCells(top, bottom, left, right) <==> top <= p.0 <= bottom && left <= p.1 <= right
    decreases bottom - top
  {
    if top <= bottom {
      RectCellsMembers(top, bottom - 1, left, right);
      var a, b := RectCells(top, bottom - 1, left, right), RowCells(bottom, left, right);
      assert RectCells(top, bottom, left, right) == a + b;
      forall p: (int, int) | top <= p.0 <= bottom && left <= p.1 <= right
        ensures p in a + b
      {
        if p.0 == bottom {
          assert b[p.1 - left] == p;
        }
      }
    }
  }

  /** No cell is visited twice. */
  lemma {:induction false} RectCellsDistinct(top: int, bottom: int, left: int, right: int)
    ensures forall i, j :: 0 <= i < j < |RectCells(top, bottom, left, right)| ==>
      RectCells(top, bottom, left, right)[i] != RectCells(top, bottom, left, right)[j]
    decreases bottom - top
  {
    if top <= bottom {
      RectCellsDistinct(top, bottom - 1, left, right);
      RectCellsMembers(top, bottom - 1, left, right);
      var a, b := RectCells(top, bottom - 1, left, right), RowCells(bottom, left, right);
      assert RectCells(top, bottom, left, right) == a + b;
      forall i, j | 0 <= i < j < |a + b| ensures (a + b)[i] != (a + b)[j] {
        if j >= |a| && i < |a| {
          assert a[i] in a;
        }
      }
    }
  }

  /** The first cell visited is the top-left corner. */
  lemma {:induction false} RectCellsFirst(top: int, bottom: int, left: int, right: int)
    ensures top <= bottom && left <= right ==>
      RectCells(top, bottom, left, right) != [] && RectCells(top, bottom, left, right)[0] == (top, left)
    decreases bottom - top
  {
    if top <= bottom && left <= right {
      var a, b := RectCells(top, bottom - 1, left, right), RowCells(bottom, left, right);
      assert RectCells(top, bottom, left, right) == a + b;
      if top < bottom {
        RectCellsFirst(top, bottom - 1, left, right);
        assert (a + b)[0] == a[0];
      }
    }
  }

  /** The cells a range assigns: all of its cells but the first visited. */
  function AssignedCells(rg: Range): seq<(int, int)>
  {
    AllButFirst(RectCells(rg.top, rg.bottom, rg.left, rg.right))
  }

  /** A range makes exactly area - 1 assignments, one per cell other than its
      top-left corner. */
  lemma AssignedCellsShape(rg: Range)
    requires rg.WellFormed()
    ensures |AssignedCells(rg)| == rg.Area() - 1
    ensures forall p :: p in AssignedCells(rg) <==> rg.Contains(p) && p != rg.Corner()
    ensures forall i, j :: 0 <= i < j < |AssignedCells(rg)| ==> AssignedCells(rg)[i] != AssignedCells(rg)[j]
  {
    AssignedCellsCount(rg);
    AssignedCellsMembers(rg);
  }

  /** The loops make area - 1 assignments. */
  lemma AssignedCellsCount(rg: Range)
    requires rg.WellFormed()
    ensures |AssignedCells(rg)| == rg.Area() - 1
  {
    var ps := RectCells(rg.top, rg.bottom, rg.left, rg.right);
    RectCellsFirst(rg.top, rg.bottom, rg.left, rg.right);
    RectCellsLength(rg.top, rg.bottom, rg.left, rg.right);
    assert AssignedCells(rg) == ps[1..];
  }

  /** Each cell but the corner is assigned, and none twice. */
  lemma AssignedCellsMembers(rg: Range)
    requires rg.WellFormed()
    ensures forall p :: p in AssignedCells(rg) <==> rg.Contains(p) && p != rg.Corner()
    ensures forall i, j :: 0 <= i < j < |AssignedCells(rg)| ==> AssignedCells(rg)[i] != AssignedCells(rg)[j]
  {
    var ps := RectCells(rg.top, rg.bottom, rg.left, rg.right);
    RectCellsFirst(rg.top, rg.bottom, rg.left, rg.right);
    RectCellsMembers(rg.top, rg.bottom, rg.left, rg.right);
    RectCellsDistinct(rg.top, rg.bottom, rg.left, rg.right);
    assert AssignedCells(rg) == ps[1..];
    DropFirstOfDistinct(ps);
  }

  /** Dropping the first element of a sequence without repetitions removes
      exactly that element. */
  lemma DropFirstOfDistinct<T>(ps: seq<T>)
    requires ps != []
    requires forall i, j :: 0 <= i < j < |ps| ==> ps[i] != ps[j]
    ensures forall p :: p in ps[1..] <==> p in ps && p != ps[0]
    ensures forall i, j :: 0 <= i < j < |ps[1..]| ==> ps[1..][i] != ps[1..][j]
  {
    forall p | p in ps[1..] ensures p != ps[0] {
      var k :| 0 <= k < |ps[1..]| && ps[1..][k] == p;
      assert ps[k + 1] != ps[0];
    }
    forall p | p in ps && p != ps[0] ensures p in ps[1..] {
      var k :| 0 <= k < |ps| && ps[k] == p;
      assert ps[1..][k - 1] == p;
    }
  }

  /** The state of cell `p`. */
  function StateIn<V>(cells: map<(int, int), map<Attr, V>>, blank: map<Attr, V>, p: (int, int)): map<Attr, V>
  {
    if p in cells then cells[p] else blank
  }

  /** Every cell, and the blank state, has every attribute. */
  predicate AllTotal<V>(cells: map<(int, int), map<Attr, V>>, blank: map<Attr, V>)
  {
    Total(blank) && forall p :: p in cells ==> Total(cells[p])
  }

  /** The cells after assigning `state` to each cell of `ps` in turn. */
  function FillCells<V>(cells: map<(int, int), map<Attr, V>>, blank: map<Attr, V>, ps: seq<(int, int)>,
                        state: map<Attr, V>): map<(int, int), map<Attr, V>>
  {
    if ps == [] then cells
    else
      var before := FillCells(cells, blank, ps[..|ps| - 1], state);
      var p := ps[|ps| - 1];
      before[p := StateIn(before, blank, p) + state]
  }

  /** After the assignments, a cell among `ps` carries `state` over its old
      attributes, and every other cell is as it was. */
  lemma {:induction false} FillCellsState<V>(cells: map<(int, int), map<Attr, V>>, blank: map<Attr, V>,
                                             ps: seq<(int, int)>, state: map<Attr, V>, q: (int, int))
    ensures StateIn(FillCells(cells, blank, ps, state), blank, q) ==
      if q in ps then StateIn(cells, blank, q) + state else StateIn(cells, blank, q)
  {
    if ps != [] {
      var init := ps[..|ps| - 1];
      FillCellsState(cells, blank, init, state, q);
      assert ps == init + [ps[|ps| - 1]];
      if q in init && q == ps[|ps| - 1] {
        var old_ := StateIn(cells, blank, q);
        assert old_ + state + state == old_ + state;
      }
    }
  }

  /** Cell `p` is one the range covers other than its top-left corner. */
  predicate Covered(rg: Range, p: (int, int))
  {
    rg.Contains(p) && p != rg.Corner()
  }

  /** The cells after openpyxl's `unmerge_cells`: the cells the range covers,
      all but its top-left corner, are deleted and read as blank again. */
  function Cleared<V>(cells: map<(int, int), map<Attr, V>>, rg: Range): (r: map<(int, int), map<Attr, V>>)
    ensures forall p :: p in r <==> p in cells && !Covered(rg, p)
  {
    map p | p in cells && !Covered(rg, p) :: cells[p]
  }

  lemma ClearedState<V>(cells: map<(int, int), map<Attr, V>>, blank: map<Attr, V>, rg: Range, q: (int, int))
    ensures StateIn(Cleared(cells, rg), blank, q) == if Covered(rg, q) then blank else StateIn(cells, blank, q)
  {
  }

  /** Unmerging range after range: each range's top-left state is taken from
      the sheet as the earlier ranges left it, then the range's covered cells
      are deleted and given that state. */
  function UnmergeAll<V>(cells: map<(int, int), map<Attr, V>>, blank: map<Attr, V>, ranges: seq<Range>,
                         inherit: seq<Attr>): map<(int, int), map<Attr, V>>
    decreases |ranges|
  {
    if ranges == [] then cells
    else
      var rg := ranges[0];
      var state := GetBaseState(StateIn(cells, blank, rg.Corner()), inherit);
      var filled := FillCells(Cleared(cells, rg), blank, AssignedCells(rg), state);
      UnmergeAll(filled, blank, ranges[1..], inherit)
  }

  lemma {:induction false} FillKeepsTotal<V>(cells: map<(int, int), map<Attr, V>>, blank: map<Attr, V>,
                                             ps: seq<(int, int)>, state: map<Attr, V>)
    requires AllTotal(cells, blank)
    ensures AllTotal(FillCells(cells, blank, ps, state), blank)
  {
    if ps != [] {
      FillKeepsTotal(cells, blank, ps[..|ps| - 1], state);
    }
  }

  /** Unmerging keeps every cell carrying every attribute. */
  lemma {:induction false} UnmergeKeepsTotal<V>(cells: map<(int, int), map<Attr, V>>, blank: map<Attr, V>,
                                                ranges: seq<Range>, inherit: seq<Attr>)
    requires AllTotal(cells, blank)
    ensures AllTotal(UnmergeAll(cells, blank, ranges, inherit), blank)
    decreases |ranges|
  {
    if ranges != [] {
      var rg := ranges[0];
      var state := GetBaseState(StateIn(cells, blank, rg.Corner()), inherit);
      FillKeepsTotal(Cleared(cells, rg), blank, AssignedCells(rg), state);
      UnmergeKeepsTotal(FillCells(Cleared(cells, rg), blank, AssignedCells(rg), state), blank, ranges[1..], inherit);
    }
  }

  /** Unmerging one range: every cell the range covers, once deleted, reads
      as blank and then gets the top-left's inherited attributes; the top-left
      corner and every cell outside the range are unchanged. */
  lemma UnmergeOne<V>(cells: map<(int, int), map<Attr, V>>, blank: map<Attr, V>, rg: Range,
                      inherit: seq<Attr>, q: (int, int))
    requires AllTotal(cells, blank) && rg.WellFormed()
    ensures var corner := StateIn(cells, blank, rg.Corner());
      var after := StateIn(UnmergeAll(cells, blank, [rg], inherit), blank, q);
      && Total(after)
      && (Covered(rg, q) ==>
            && after == blank + GetBaseState(corner, inherit)
            && (forall a :: a in inherit ==> after[a] == corner[a])
            && (forall a :: a !in inherit ==> after[a] == blank[a]))
      && (!Covered(rg, q) ==> after == StateIn(cells, blank, q))
  {
    var corner := StateIn(cells, blank, rg.Corner());
    assert Total(corner);
    var state := GetBaseState(corner, inherit);
    var cleared := Cleared(cells, rg);
    AssignedCellsShape(rg);
    FillCellsState(cleared, blank, AssignedCells(rg), state, q);
    ClearedState(cells, blank, rg, q);
    var filled := FillCells(cleared, blank, AssignedCells(rg), state);
    FillKeepsTotal(cleared, blank, AssignedCells(rg), state);
    assert UnmergeAll(cells, blank, [rg], inherit) == UnmergeAll(filled, blank, [], inherit);
    CopyInherited(corner, blank, inherit);
  }

  /** No cell lies in two of the ranges. */
  predicate Disjoint(ranges: seq<Range>)
  {
    forall i, j :: 0 <= i < j < |ranges| ==> !Overlap(ranges[i], ranges[j])
  }

  /** Two ranges share a cell. */
  predicate Overlap(a: Range, b: Range)
  {
    a.left <= b.right && b.left <= a.right && a.top <= b.bottom && b.top <= a.bottom
  }

  /** Unmerging a whole sheet whose ranges share no cell: each covered cell
      reads as blank with the inherited attributes of its own range's ORIGINAL
      top-left corner, and every other cell is as it was. */
  lemma {:induction false} UnmergeAllMeaning<V>(cells: map<(int, int), map<Attr, V>>, blank: map<Attr, V>,
                                                ranges: seq<Range>, inherit: seq<Attr>, q: (int, int))
    requires AllTotal(cells, blank) && Disjoint(ranges)
    requires forall i :: 0 <= i < |ranges| ==> ranges[i].WellFormed()
    ensures var after := StateIn(UnmergeAll(cells, blank, ranges, inherit), blank, q);
      && ((forall i :: 0 <= i < |ranges| ==> !Covered(ranges[i], q)) ==> after == StateIn(cells, blank, q))
      && (forall i :: 0 <= i < |ranges| && Covered(ranges[i], q) ==>
            after == blank + GetBaseState(StateIn(cells, blank, ranges[i].Corner()), inherit))
    decreases |ranges|
  {
    if ranges != [] {
      var rg, rest := ranges[0], ranges[1..];
      var filled := UnmergeAll(cells, blank, [rg], inherit);
      var state := GetBaseState(StateIn(cells, blank, rg.Corner()), inherit);
      var f := FillCells(Cleared(cells, rg), blank, AssignedCells(rg), state);
      assert [rg][1..] == [];
      assert filled == UnmergeAll(f, blank, [], inherit) == f;
      assert UnmergeAll(cells, blank, ranges, inherit) == UnmergeAll(filled, blank, rest, inherit);
      UnmergeKeepsTotal(cells, blank, [rg], inherit);
      assert Disjoint(rest) by {
        forall i, j | 0 <= i < j < |rest| ensures !Overlap(rest[i], rest[j]) {
          assert rest[i] == ranges[i + 1] && rest[j] == ranges[j + 1];
        }
      }
      UnmergeAllMeaning(filled, blank, rest, inherit, q);
      UnmergeOne(cells, blank, rg, inherit, q);
      var after := StateIn(UnmergeAll(cells, blank, ranges, inherit), blank, q);
      forall i | 0 <= i < |ranges| && Covered(ranges[i], q)
        ensures after == blank + GetBaseState(StateIn(cells, blank, ranges[i].Corner()), inherit)
      {
        if i == 0 {
          forall j | 0 <= j < |rest| ensures !Covered(rest[j], q) {
            assert !Overlap(ranges[0], ranges[j + 1]);
          }
        } else {
          assert rest[i - 1] == ranges[i];
          assert !Overlap(ranges[0], ranges[i]);
          UnmergeOne(cells, blank, rg, inherit, ranges[i].Corner());
        }
      }
      if forall i :: 0 <= i < |ranges| ==> !Covered(ranges[i], q) {
        forall j | 0 <= j < |rest| ensures !Covered(rest[j], q) {
          assert rest[j] == ranges[j + 1];
        }
      }
    }
  }

  /** With the default `inherit`, a covered cell gets the corner's value and
      is blank in every other attribute. */
  lemma DefaultInheritsValueOnly<V>(corner: map<Attr, V>, blank: map<Attr, V>)
    requires Total(corner) && Total(blank)
    ensures blank + GetBaseState(corner, DefaultInherit) == blank[Value := corner[Value]]
  {
  }

  /** A worksheet: its cells, the state of a cell never written, and its
      merged ranges. */
  class Sheet<V> {
    var cells: map<(int, int), map<Attr, V>>
    const blank: map<Attr, V>
    var merged: set<Range>

    ghost predicate Valid()
      reads this
    {
      AllTotal(cells, blank) && forall rg :: rg in merged ==> rg.WellFormed()
    }

    constructor (cells0: map<(int, int), map<Attr, V>>, blank0: map<Attr, V>, merged0: set<Range>)
      ensures cells == cells0 && blank == blank0 && merged == merged0
    {
      cells, blank, merged := cells0, blank0, merged0;
    }

    /** The state of the cell at `p`. */
    function State(p: (int, int)): map<Attr, V>
      reads this
    {
      StateIn(cells, blank, p)
    }

    /** assign_state on `sheet.cell(row, col)`: each attribute of `res` is set
        in turn. */
    method AssignState(p: (int, int), res: map<Attr, V>)
      modifies this
      ensures cells == old(cells)[p := old(State(p)) + res]
      ensures merged == old(merged)
    {
      var cell := State(p);
      var todo := res.Keys;
      while todo != {}
        invariant todo <= res.Keys
        invariant cell == old(State(p)) + map a | a in res.Keys - todo :: res[a]
        decreases todo
      {
        var name :| name in todo;
        cell := cell[name := res[name]];
        todo := todo - {name};
      }
      assert cell == old(State(p)) + res;
      cells := cells[p := cell];
    }

    /** openpyxl's `unmerge_cells`: the range is no longer merged, and the
        cells it covered, all but the top-left, are deleted. */
    method UnmergeCells(rg: Range)
      requires rg in merged
      modifies this
      ensures merged == old(merged) - {rg}
      ensures cells == Cleared(old(cells), rg)
    {
      merged := merged - {rg};
      cells := Cleared(cells, rg);
    }

    /** auto_unmerge_sheet, with `order` the snapshot `list(sheet.merged_cells)`:
        for each range the top-left state is read, the range is unmerged, and
        the nested loops over its rows and columns skip the first cell and
        assign the state to every other one. Afterwards nothing is merged. */
    method AutoUnmergeSheet(order: seq<Range>, inherit: seq<Attr>)
      requires Valid()
      requires forall i, j :: 0 <= i < j < |order| ==> order[i] != order[j]
      requires forall rg :: rg in order <==> rg in merged
      modifies this
      ensures Valid()
      ensures cells == UnmergeAll(old(cells), blank, order, inherit)
      ensures merged == {}
    {
      for i := 0 to |order|
        invariant Valid()
        invariant UnmergeAll(old(cells), blank, order, inherit) == UnmergeAll(cells, blank, order[i..], inherit)
        invariant forall rg :: rg in merged <==> rg in order[i..]
      {
        var rg := order[i];
        var left, top, right, bottom := rg.left, rg.top, rg.right, rg.bottom;
        var value := GetBaseState(State((top, left)), inherit);
        UnmergeCells(rg);
        ghost var start := cells;
        FillRange(rg, value);
        FillKeepsTotal(start, blank, AssignedCells(rg), value);
        assert order[i..][1..] == order[i + 1..];
        forall r | r in merged ensures r in order[i + 1..] {
          var k :| i <= k < |order| && order[k] == r;
          assert order[k] != order[i] ==> k != i;
          assert order[i + 1..][k - i - 1] == r;
        }
      }
      assert order[|order|..] == [];
    }

    /** The nested loops of auto_unmerge_sheet for one range: rows top to
        bottom, columns left to right, the first cell skipped by the flag. */
    method FillRange(rg: Range, value: map<Attr, V>)
      requires rg.WellFormed()
      modifies this
      ensures cells == FillCells(old(cells), blank, AssignedCells(rg), value)
      ensures merged == old(merged)
    {
      var flagBase := true;
      ghost var visited: seq<(int, int)> := [];
      for row := rg.top to rg.bottom + 1
        invariant merged == old(merged)
        invariant visited == RectCells(rg.top, row - 1, rg.left, rg.right)
        invariant flagBase <==> visited == []
        invariant cells == FillCells(old(cells), blank, AllButFirst(visited), value)
      {
        RectCellsStep(rg.top, row, rg.left, rg.right);
        flagBase, visited := FillRow(row, rg.left, rg.right, value, flagBase, old(cells), visited);
      }
      AllCellsVisited(rg, visited);
    }

    /** The inner loop over the columns of one row. */
    method FillRow(row: int, left: int, right: int, value: map<Attr, V>, flagBase: bool,
                   ghost base: map<(int, int), map<Attr, V>>, ghost visited: seq<(int, int)>)
      returns (flagBase': bool, ghost visited': seq<(int, int)>)
      requires left <= right
      requires flagBase <==> visited == []
      requires cells == FillCells(base, blank, AllButFirst(visited), value)
      modifies this
      ensures visited' == visited + RowCells(row, left, right)
      ensures flagBase' <==> visited' == []
      ensures cells == FillCells(base, blank, AllButFirst(visited'), value)
      ensures merged == old(merged)
    {
      flagBase', visited' := flagBase, visited;
      for col := left to right + 1
        invariant merged == old(merged)
        invariant visited' == visited + RowCells(row, left, col - 1)
        invariant flagBase' <==> visited' == []
        invariant cells == FillCells(base, blank, AllButFirst(visited'), value)
      {
        RowCellsStep(row, left, col);
        AllButFirstStep(visited', (row, col));
        visited' := visited' + [(row, col)];
        if flagBase' {
          flagBase' := false;
          continue;
        }
        AssignState((row, col), value);
      }
    }
  }

  lemma RectCellsStep(top: int, row: int, left: int, right: int)
    requires top <= row
    ensures RectCells(top, row, left, right) == RectCells(top, row - 1, left, right) + RowCells(row, left, right)
  {
  }

  /** Once all rows are visited, the assigned cells are those of the range. */
  lemma AllCellsVisited(rg: Range, visited: seq<(int, int)>)
    requires rg.WellFormed()
    requires visited == RectCells(rg.top, rg.bottom + 1 - 1, rg.left, rg.right)
    ensures AllButFirst(visited) == AssignedCells(rg)
  {
  }

  /** All elements but the first. */
  function AllButFirst<T>(s: seq<T>): seq<T>
  {
    if s == [] then [] else s[1..]
  }

  lemma AllButFirstStep<T>(s: seq<T>, x: T)
    ensures AllButFirst(s + [x]) == if s == [] then [] else AllButFirst(s) + [x]
  {
    if s != [] {
      assert (s + [x])[1..] == s[1..] + [x];
    }
  }

  lemma RowCellsStep(row: int, left: int, col: int)
    requires left <= col
    ensures RowCells(row, left, col) == RowCells(row, left, col - 1) + [(row, col)]
  {
  }

  /** auto_unmerge_workbook: every sheet of the workbook is unmerged, each with
      the snapshot order of its own ranges. */
  method AutoUnmergeWorkbook<V>(sheets: seq<Sheet<V>>, orders: seq<seq<Range>>, inherit: seq<Attr>)
    requires |orders| == |sheets|
    requires forall i, j :: 0 <= i < j < |sheets| ==> sheets[i] != sheets[j]
    requires forall i :: 0 <= i < |sheets| ==> sheets[i].Valid()
    requires forall i :: 0 <= i < |sheets| ==>
      (forall a, b :: 0 <= a < b < |orders[i]| ==> orders[i][a] != orders[i][b])
      && (forall rg :: rg in orders[i] <==> rg in sheets[i].merged)
    modifies set s | s in sheets
    ensures forall i :: 0 <= i < |sheets| ==>
      && sheets[i].Valid() && sheets[i].merged == {}
      && sheets[i].cells == UnmergeAll(old(sheets[i].cells), sheets[i].blank, orders[i], inherit)
  {
    for i := 0 to |sheets|
      invariant forall k :: 0 <= k < i ==>
        && sheets[k].Valid() && sheets[k].merged == {}
        && sheets[k].cells == UnmergeAll(old(sheets[k].cells), sheets[k].blank, orders[k], inherit)
      invariant forall k :: i <= k < |sheets| ==>
        sheets[k].cells == old(sheets[k].cells) && sheets[k].merged == old(sheets[k].merged)
    {
      sheets[i].AutoUnmergeSheet(orders[i], inherit);
    }
  }
}
