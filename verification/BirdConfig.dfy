/** rpcd-mod-bird's config editor: set the OSPF cost of one interface in the text of a
    BIRD configuration. */
module BirdConfig {
  import opened Text
  import opened BirdLines
  import opened Wrappers

  datatype Error = EmptyName | NotANumber | OutOfRange | NotFound | NoBrace | Unterminated

  datatype Result<+T> = Ok(value: T) | Err(error: Error)

  /** One interface block: its header, the line of its opening brace, the line that closes
      it and its first cost line, if any. */
  datatype Block = Block(head: nat, open: nat, close: nat, cost: Option<nat>)

  // ----- finding a block

  /** All the search for a block looks at in a line. */
  datatype Mark = Mark(header: bool, open: bool, delta: int, cost: bool)

  function MarkOf(line: string, iface: string): Mark {
    Mark(IsHeader(line, iface), HasOpen(line), BraceDelta(line), IsCost(line))
  }

  function Marks(lines: seq<string>, iface: string): (r: seq<Mark>)
    ensures |r| == |lines| && forall i | 0 <= i < |lines| :: r[i] == MarkOf(lines[i], iface)
  {
    if lines == [] then [] else Marks(lines[..|lines| - 1], iface) + [MarkOf(lines[|lines| - 1], iface)]
  }

  datatype Kind = Header | Open | Cost

  predicate Is(m: Mark, kind: Kind) {
    match kind
    case Header => m.header
    case Open => m.open
    case Cost => m.cost
  }

  /** First line of a kind from `i` on, or the number of lines. */
  function First(marks: seq<Mark>, i: nat, kind: Kind): (r: nat)
    requires i <= |marks|
    ensures i <= r <= |marks| && (r < |marks| ==> Is(marks[r], kind))
    decreases |marks| - i
  {
    if i == |marks| || Is(marks[i], kind) then i else First(marks, i + 1, kind)
  }

  /** First line from `i` on that brings a brace depth of `depth` down to zero. */
  function CloseAt(marks: seq<Mark>, i: nat, depth: int): (r: nat)
    requires i <= |marks|
    ensures i <= r <= |marks|
    decreases |marks| - i
  {
    if i == |marks| then i
    else
      var d := depth + marks[i].delta;
      if d <= 0 then i else CloseAt(marks, i + 1, d)
  }

  function Find(marks: seq<Mark>): (r: Result<Block>)
    ensures r.Ok? ==> FitsIn(r.value, marks)
  {
    var head := First(marks, 0, Header);
    if head == |marks| then Err(NotFound)
    else
      var open := First(marks, head, Open);
      if open == |marks| then Err(NoBrace)
      else
        var close := CloseAt(marks, open + 1, 1);
        if close == |marks| then Err(Unterminated)
        else
          var k := First(marks, open + 1, Cost);
          Ok(Block(head, open, close, if k < close then Some(k) else None))
  }

  predicate FitsIn(b: Block, marks: seq<Mark>) {
    && b.head <= b.open < b.close < |marks|
    && (b.cost.Some? ==> b.open < b.cost.value < b.close && marks[b.cost.value].cost)
  }

  function Locate(lines: seq<string>, iface: string): (r: Result<Block>)
    ensures r.Ok? ==> Fits(r.value, lines)
  {
    Find(Marks(lines, iface))
  }

  predicate Fits(b: Block, lines: seq<string>) {
    && b.head <= b.open < b.close < |lines|
    && (b.cost.Some? ==> b.open < b.cost.value < b.close && IsCost(lines[b.cost.value]))
  }

  // ----- editing

  function Insert<T>(s: seq<T>, p: nat, x: T): seq<T>
    requires p <= |s|
  {
    s[..p] + [x] + s[p..]
  }

  function Put(lines: seq<string>, b: Block, cost: nat): seq<string>
    requires Fits(b, lines)
  {
    match b.cost
    case Some(k) => lines[k := SetCost(lines[k], cost)]
    case None => Insert(lines, b.open + 1, NewCost(lines[b.open], cost))
  }

  /** The editor on lines. */
  function Edit(lines: seq<string>, iface: string, cost: nat): Result<seq<string>> {
    match Locate(lines, iface)
    case Err(e) => Err(e)
    case Ok(b) => Ok(Put(lines, b, cost))
  }

  /** The cost a configuration gives an interface, if it gives one. */
  function CostOf(lines: seq<string>, iface: string): Option<nat> {
    match Locate(lines, iface)
    case Err(_) => None
    case Ok(b) => if b.cost.Some? then Some(CostIn(lines[b.cost.value])) else None
  }

  // ----- an edit moves no block, except that a new line shifts what lies behind it

  lemma ReplaceKeepsBlocks(lines: seq<string>, k: nat, cost: nat, iface: string)
    requires k < |lines| && IsCost(lines[k])
    ensures Locate(lines[k := SetCost(lines[k], cost)], iface) == Locate(lines, iface)
  {
    SetCostShape(lines[k], cost);
    assert Marks(lines[k := SetCost(lines[k], cost)], iface) == Marks(lines, iface);
  }

  function Shift(r: nat, p: nat): nat {
    if r < p then r else r + 1
  }

  /** The mark of an inserted cost line. */
  const NEW := Mark(false, false, 0, true)

  lemma {:induction false} FirstShifts(marks: seq<Mark>, p: nat, i: nat, kind: Kind)
    requires p <= |marks| && i <= |marks|
    ensures i >= p ==> First(Insert(marks, p, NEW), i + 1, kind) == First(marks, i, kind) + 1
    ensures i <= p && kind != Cost ==> First(Insert(marks, p, NEW), i, kind) == Shift(First(marks, i, kind), p)
    ensures i <= p && kind == Cost ==>
      First(Insert(marks, p, NEW), i, kind) == if First(marks, i, kind) < p then First(marks, i, kind) else p
    decreases |marks| - i
  {
    var more := Insert(marks, p, NEW);
    assert i < p ==> more[i] == marks[i];
    assert more[p] == NEW;
    assert p <= i < |marks| ==> more[i + 1] == marks[i];
    if i < |marks| {
      FirstShifts(marks, p, i + 1, kind);
    }
  }

  lemma {:induction false} CloseShifts(marks: seq<Mark>, p: nat, i: nat, depth: int)
    requires p <= |marks| && i <= |marks| && depth >= 1
    ensures i >= p ==> CloseAt(Insert(marks, p, NEW), i + 1, depth) == CloseAt(marks, i, depth) + 1
    ensures i <= p ==> CloseAt(Insert(marks, p, NEW), i, depth) == Shift(CloseAt(marks, i, depth), p)
    decreases |marks| - i
  {
    var more := Insert(marks, p, NEW);
    assert i < p ==> more[i] == marks[i];
    assert more[p] == NEW;
    assert p <= i < |marks| ==> more[i + 1] == marks[i];
    if i < |marks| && depth + marks[i].delta >= 1 {
      CloseShifts(marks, p, i + 1, depth + marks[i].delta);
    }
  }

  /** The inserted line lands inside the block. */
  predicate Inside(p: nat, b: Block) {
    b.open < p <= b.close
  }

  /** The inserted line becomes the block's first cost line. */
  predicate Hits(p: nat, b: Block) {
    Inside(p, b) && (b.cost.Some? ==> p <= b.cost.value)
  }

  function ShiftBlock(b: Block, p: nat): Block {
    Block(Shift(b.head, p), Shift(b.open, p), Shift(b.close, p),
          if Hits(p, b) then Some(p)
          else if b.cost.Some? then Some(Shift(b.cost.value, p)) else None)
  }

  lemma FirstShiftsTo(marks: seq<Mark>, p: nat, i: nat, kind: Kind)
    requires p <= |marks| && i <= |marks| && kind != Cost
    ensures First(Insert(marks, p, NEW), Shift(i, p), kind) == Shift(First(marks, i, kind), p)
  {
    FirstShifts(marks, p, i, kind);
  }

  lemma CloseShiftsTo(marks: seq<Mark>, p: nat, i: nat)
    requires p <= |marks| && i < |marks|
    ensures CloseAt(Insert(marks, p, NEW), Shift(i, p) + 1, 1) == Shift(CloseAt(marks, i + 1, 1), p)
  {
    CloseShifts(marks, p, i + 1, 1);
  }

  lemma CostShiftsTo(marks: seq<Mark>, p: nat, i: nat)
    requires p <= |marks| && i < |marks|
    ensures var k := First(marks, i + 1, Cost);
            First(Insert(marks, p, NEW), Shift(i, p) + 1, Cost) == if i < p <= k then p else Shift(k, p)
  {
    FirstShifts(marks, p, i + 1, Cost);
  }

  function BlockOf(head: nat, open: nat, close: nat, k: nat): Block {
    Block(head, open, close, if k < close then Some(k) else None)
  }

  lemma FindIs(marks: seq<Mark>, head: nat, open: nat, close: nat)
    requires head < |marks| && open < |marks| && close < |marks|
    requires First(marks, 0, Header) == head && First(marks, head, Open) == open && CloseAt(marks, open + 1, 1) == close
    ensures Find(marks) == Ok(BlockOf(head, open, close, First(marks, open + 1, Cost)))
  {
  }

  lemma ShiftBlockOf(head: nat, open: nat, close: nat, k: nat, p: nat)
    requires head <= open < close && open < k
    ensures ShiftBlock(BlockOf(head, open, close, k), p)
         == BlockOf(Shift(head, p), Shift(open, p), Shift(close, p), if open < p <= k then p else Shift(k, p))
  {
  }

  lemma FindShifts(marks: seq<Mark>, p: nat)
    requires p <= |marks| && Find(marks).Ok?
    ensures Find(Insert(marks, p, NEW)) == Ok(ShiftBlock(Find(marks).value, p))
  {
    hide CloseAt;
    hide First;
    assert |Insert(marks, p, NEW)| == |marks| + 1;
    hide Insert;
    var head := First(marks, 0, Header);
    var open := First(marks, head, Open);
    var close := CloseAt(marks, open + 1, 1);
    FirstShifts(marks, p, 0, Header);
    FirstShiftsTo(marks, p, head, Open);
    CloseShiftsTo(marks, p, open);
    CostShiftsTo(marks, p, open);
    FindIs(Insert(marks, p, NEW), Shift(head, p), Shift(open, p), Shift(close, p));
    ShiftBlockOf(head, open, close, First(marks, open + 1, Cost), p);
  }

  lemma MissingStaysMissing(marks: seq<Mark>, p: nat)
    requires p <= |marks| && Find(marks).Err?
    ensures Find(Insert(marks, p, NEW)) == Find(marks)
  {
    var head := First(marks, 0, Header);
    FirstShifts(marks, p, 0, Header);
    if head < |marks| {
      FirstShiftsTo(marks, p, head, Open);
      var open := First(marks, head, Open);
      if open < |marks| {
        CloseShiftsTo(marks, p, open);
      }
    }
  }

  lemma InsertShiftsBlocks(lines: seq<string>, p: nat, x: string, iface: string)
    requires p <= |lines| && Neutral(x)
    ensures Locate(Insert(lines, p, x), iface)
         == match Locate(lines, iface) { case Ok(b) => Ok(ShiftBlock(b, p)) case Err(e) => Err(e) }
  {
    hide ParseCost;
    hide IsHeader;
    hide BraceDelta;
    CostIsNoHeader(x, iface);
    assert Marks(Insert(lines, p, x), iface) == Insert(Marks(lines, iface), p, NEW);
    if Locate(lines, iface).Ok? {
      FindShifts(Marks(lines, iface), p);
    } else {
      MissingStaysMissing(Marks(lines, iface), p);
    }
  }

  // ----- laws of the editor

  /** Where the block `b` is after an edit of the block `edited`. */
  function Moved(b: Block, edited: Block): Block {
    if edited.cost.Some? then b else ShiftBlock(b, edited.open + 1)
  }

  lemma EditMovesBlocks(lines: seq<string>, iface: string, cost: nat, other: string)
    requires Locate(lines, iface).Ok?
    ensures Locate(Edit(lines, iface, cost).value, other)
         == match Locate(lines, other) { case Ok(b) => Ok(Moved(b, Locate(lines, iface).value)) case Err(e) => Err(e) }
  {
    hide ParseCost;
    hide Locate;
    hide NewCost;
    var b := Locate(lines, iface).value;
    if b.cost.Some? {
      ReplaceKeepsBlocks(lines, b.cost.value, cost, other);
    } else {
      NewCostShape(lines[b.open], cost);
      InsertShiftsBlocks(lines, b.open + 1, NewCost(lines[b.open], cost), other);
    }
  }

  /** A later edit of the same interface overrides an earlier one, for all texts. */
  lemma LaterEditWins(lines: seq<string>, iface: string, first: nat, second: nat)
    requires Edit(lines, iface, first).Ok?
    ensures Edit(Edit(lines, iface, first).value, iface, second) == Edit(lines, iface, second)
  {
    hide ParseCost;
    hide Locate;
    hide NewCost;
    EditMovesBlocks(lines, iface, first, iface);
    var b := Locate(lines, iface).value;
    if b.cost.Some? {
      var k := b.cost.value;
      SetCostTwice(lines[k], first, second);
      assert lines[k := SetCost(lines[k], first)][k := SetCost(lines[k], second)]
          == lines[k := SetCost(lines[k], second)];
    } else {
      NewThenSet(lines[b.open], first, second);
      var p := b.open + 1;
      assert Insert(lines, p, NewCost(lines[b.open], first))[p := NewCost(lines[b.open], second)]
          == Insert(lines, p, NewCost(lines[b.open], second));
    }
  }

  /** Applying the same edit again changes nothing, for all texts. */
  lemma EditIsIdempotent(lines: seq<string>, iface: string, cost: nat)
    requires Edit(lines, iface, cost).Ok?
    ensures Edit(Edit(lines, iface, cost).value, iface, cost) == Edit(lines, iface, cost)
  {
    hide Edit;
    hide Locate;
    LaterEditWins(lines, iface, cost, cost);
  }

  /** Two edits compete for a line: both replace the same number, or the line one of them
      inserts becomes the first cost line of the other's block. */
  predicate Conflict(a: Block, b: Block) {
    || (a.cost.Some? && a.cost == b.cost)
    || (a.cost.None? && Hits(a.open + 1, b))
    || (b.cost.None? && Hits(b.open + 1, a))
  }

  predicate Disjoint(a: Block, b: Block) {
    a.close <= b.open || b.close <= a.open
  }

  /** Disjoint blocks never conflict. */
  lemma DisjointBlocksAreFree(lines: seq<string>, a: Block, b: Block)
    requires Fits(a, lines) && Fits(b, lines) && Disjoint(a, b)
    ensures !Conflict(a, b)
  {
  }

  /** The edited interface reads back the new cost; every interface whose block is not in
      conflict reads back what it had. */
  lemma EditReadsBack(lines: seq<string>, iface: string, cost: nat, other: string)
    requires Edit(lines, iface, cost).Ok?
    ensures CostOf(Edit(lines, iface, cost).value, iface) == Some(cost)
    ensures (Locate(lines, other).Ok? ==> !Conflict(Locate(lines, iface).value, Locate(lines, other).value)) ==>
              CostOf(Edit(lines, iface, cost).value, other) == CostOf(lines, other)
  {
    hide ParseCost;
    hide Locate;
    hide NewCost;
    EditMovesBlocks(lines, iface, cost, iface);
    EditMovesBlocks(lines, iface, cost, other);
    var b := Locate(lines, iface).value;
    if b.cost.Some? {
      SetCostShape(lines[b.cost.value], cost);
    } else {
      NewCostShape(lines[b.open], cost);
    }
  }

  ghost predicate Commute(lines: seq<string>, i: string, j: string, ci: nat, cj: nat)
    requires Locate(lines, i).Ok? && Locate(lines, j).Ok?
  {
    Edit(Edit(lines, i, ci).value, j, cj) == Edit(Edit(lines, j, cj).value, i, ci)
  }

  lemma ReplacementsCommute(lines: seq<string>, i: string, j: string, ci: nat, cj: nat)
    requires Locate(lines, i).Ok? && Locate(lines, j).Ok?
    requires Locate(lines, i).value.cost.Some? && Locate(lines, j).value.cost.Some?
    requires !Conflict(Locate(lines, i).value, Locate(lines, j).value)
    ensures Commute(lines, i, j, ci, cj)
  {
    hide ParseCost;
    hide Locate;
    hide NewCost;
    EditMovesBlocks(lines, i, ci, j);
    EditMovesBlocks(lines, j, cj, i);
    var k, l := Locate(lines, i).value.cost.value, Locate(lines, j).value.cost.value;
    var x, y := SetCost(lines[k], ci), SetCost(lines[l], cj);
    assert lines[k := x][l := y] == lines[l := y][k := x];
  }

  lemma InsertionCommutesWithReplacement(lines: seq<string>, i: string, j: string, ci: nat, cj: nat)
    requires Locate(lines, i).Ok? && Locate(lines, j).Ok?
    requires Locate(lines, i).value.cost.None? && Locate(lines, j).value.cost.Some?
    requires !Conflict(Locate(lines, i).value, Locate(lines, j).value)
    ensures Commute(lines, i, j, ci, cj)
  {
    hide ParseCost;
    hide Locate;
    hide NewCost;
    EditMovesBlocks(lines, i, ci, j);
    EditMovesBlocks(lines, j, cj, i);
    var o, l := Locate(lines, i).value.open, Locate(lines, j).value.cost.value;
    var x, y := NewCost(lines[o], ci), SetCost(lines[l], cj);
    var p := o + 1;
    NewCostAfterSet(lines[l], cj, ci);
    assert NewCost(lines[l := y][o], ci) == x;
    assert Insert(lines, p, x)[Shift(l, p)] == lines[l];
    assert Insert(lines, p, x)[Shift(l, p) := y] == Insert(lines[l := y], p, x);
  }

  lemma InsertTwice<T>(s: seq<T>, p: nat, x: T, q: nat, y: T)
    requires p < q <= |s|
    ensures Insert(Insert(s, p, x), q + 1, y) == Insert(Insert(s, q, y), p, x)
  {
  }

  lemma InsertionsCommute(lines: seq<string>, i: string, j: string, ci: nat, cj: nat)
    requires Locate(lines, i).Ok? && Locate(lines, j).Ok?
    requires Locate(lines, i).value.cost.None? && Locate(lines, j).value.cost.None?
    requires !Conflict(Locate(lines, i).value, Locate(lines, j).value)
    requires Locate(lines, i).value.open <= Locate(lines, j).value.open
    ensures Commute(lines, i, j, ci, cj)
  {
    hide ParseCost;
    hide Locate;
    hide NewCost;
    EditMovesBlocks(lines, i, ci, j);
    EditMovesBlocks(lines, j, cj, i);
    var o, q := Locate(lines, i).value.open, Locate(lines, j).value.open;
    assert o < q;
    var x, y := NewCost(lines[o], ci), NewCost(lines[q], cj);
    assert Insert(lines, o + 1, x)[q + 1] == lines[q];
    assert Insert(lines, q + 1, y)[o] == lines[o];
    InsertTwice(lines, o + 1, x, q + 1, y);
  }

  /** Edits commute when their blocks are not in conflict. */
  lemma EditsCommute(lines: seq<string>, i: string, j: string, ci: nat, cj: nat)
    requires Locate(lines, i).Ok? && Locate(lines, j).Ok?
    requires !Conflict(Locate(lines, i).value, Locate(lines, j).value)
    ensures Commute(lines, i, j, ci, cj)
  {
    hide Edit;
    hide Locate;
    var a, b := Locate(lines, i).value, Locate(lines, j).value;
    if a.cost.Some? && b.cost.Some? {
      ReplacementsCommute(lines, i, j, ci, cj);
    } else if b.cost.Some? {
      InsertionCommutesWithReplacement(lines, i, j, ci, cj);
    } else if a.cost.Some? {
      InsertionCommutesWithReplacement(lines, j, i, cj, ci);
    } else if a.open <= b.open {
      InsertionsCommute(lines, i, j, ci, cj);
    } else {
      InsertionsCommute(lines, j, i, cj, ci);
    }
  }

  lemma SameNumberCollides(lines: seq<string>, i: string, j: string, ci: nat, cj: nat)
    requires Locate(lines, i).Ok? && Locate(lines, j).Ok? && ci != cj
    requires Locate(lines, i).value.cost.Some? && Locate(lines, j).value.cost == Locate(lines, i).value.cost
    ensures !Commute(lines, i, j, ci, cj)
  {
    hide ParseCost;
    hide Locate;
    hide NewCost;
    EditMovesBlocks(lines, i, ci, j);
    EditMovesBlocks(lines, j, cj, i);
    var k := Locate(lines, i).value.cost.value;
    SetCostTwice(lines[k], ci, cj);
    SetCostTwice(lines[k], cj, ci);
    SetCostShape(lines[k], ci);
    SetCostShape(lines[k], cj);
    assert Edit(Edit(lines, i, ci).value, j, cj).value[k] == SetCost(lines[k], cj);
    assert Edit(Edit(lines, j, cj).value, i, ci).value[k] == SetCost(lines[k], ci);
  }

  lemma HitCollides(lines: seq<string>, i: string, j: string, ci: nat, cj: nat)
    requires Locate(lines, i).Ok? && Locate(lines, j).Ok? && ci != cj
    requires Locate(lines, i).value.cost.None? && Hits(Locate(lines, i).value.open + 1, Locate(lines, j).value)
    ensures !Commute(lines, i, j, ci, cj)
  {
    hide ParseCost;
    hide Locate;
    hide NewCost;
    EditMovesBlocks(lines, i, ci, j);
    EditMovesBlocks(lines, j, cj, i);
    var a, b := Locate(lines, i).value, Locate(lines, j).value;
    var p := a.open + 1;
    var x := NewCost(lines[a.open], ci);
    NewCostShape(lines[a.open], ci);
    SetCostShape(x, cj);
    var ij := Edit(Edit(lines, i, ci).value, j, cj).value;
    assert Edit(lines, i, ci).value == Insert(lines, p, x);
    assert ij == Insert(lines, p, x)[p := SetCost(x, cj)];
    assert |ij| == |lines| + 1 && CostIn(ij[p]) == cj;
    var after := Edit(lines, j, cj).value;
    var ji := Edit(after, i, ci).value;
    if b.cost.Some? {
      NewCostShape(after[a.open], ci);
      assert ji[p] == NewCost(after[a.open], ci);
    } else if Hits(b.open + 1, a) {
      var y := NewCost(lines[b.open], cj);
      assert b.open == a.open;
      NewCostShape(lines[b.open], cj);
      SetCostShape(y, ci);
      assert ji[p] == SetCost(y, ci);
    } else {
      assert |ji| == |lines| + 2;
    }
  }

  /** Exactly when editing two interfaces is order-independent for all costs. */
  lemma EditsCommuteIff(lines: seq<string>, i: string, j: string)
    requires Locate(lines, i).Ok? && Locate(lines, j).Ok?
    ensures (forall ci: nat, cj: nat :: Commute(lines, i, j, ci, cj))
       <==> !Conflict(Locate(lines, i).value, Locate(lines, j).value)
  {
    hide Edit;
    hide Locate;
    var a, b := Locate(lines, i).value, Locate(lines, j).value;
    if !Conflict(a, b) {
      forall ci: nat, cj: nat ensures Commute(lines, i, j, ci, cj) {
        EditsCommute(lines, i, j, ci, cj);
      }
    } else if a.cost.Some? && a.cost == b.cost {
      SameNumberCollides(lines, i, j, 1, 2);
    } else if a.cost.None? && Hits(a.open + 1, b) {
      HitCollides(lines, i, j, 1, 2);
    } else {
      HitCollides(lines, j, i, 2, 1);
      assert !Commute(lines, i, j, 1, 2);
    }
  }

  // ----- the editor on texts

  function EditText(text: string, iface: string, cost: int): Result<string> {
    if iface == "" then Err(EmptyName)
    else if cost < 0 then Err(NotANumber)
    else if cost < 1 || cost > 65535 then Err(OutOfRange)
    else
      match Edit(Split(text, '\n'), iface, cost)
      case Err(e) => Err(e)
      case Ok(lines) => Ok(Join(lines, '\n'))
  }

  lemma FreeParts(a: string, b: string, c: char)
    ensures Free(a + b, c) <==> Free(a, c) && Free(b, c)
  {
    if Free(a + b, c) {
      assert forall i | 0 <= i < |a| :: a[i] == (a + b)[i];
      assert forall i | 0 <= i < |b| :: b[i] == (a + b)[|a| + i];
    }
  }

  lemma SetCostFree(line: string, cost: nat)
    requires IsCost(line) && Free(line, '\n')
    ensures Free(SetCost(line, cost), '\n')
  {
    var w, v, d, p := CostPieces(line);
    var pre := w + ("cost" + v);
    Reassociate(w, "cost", v, d + p);
    FreeParts(pre, d + p, '\n');
    FreeParts(d, p, '\n');
    FreeParts(Dec(cost), p, '\n');
    FreeParts(pre, Dec(cost) + p, '\n');
  }

  lemma NewCostFree(open: string, cost: nat)
    ensures Free(NewCost(open, cost), '\n')
  {
    BlanksSplit(open);
    FreeParts(Dec(cost), ";", '\n');
    FreeParts(" ", Dec(cost) + ";", '\n');
    FreeParts("cost", " " + (Dec(cost) + ";"), '\n');
    FreeParts(Indent(open), "\t", '\n');
    FreeParts(Indent(open) + "\t", "cost" + (" " + (Dec(cost) + ";")), '\n');
  }

  /** The edited lines come back from the edited text. */
  lemma EditedLines(text: string, iface: string, cost: nat)
    requires Edit(Split(text, '\n'), iface, cost).Ok?
    ensures var out := Edit(Split(text, '\n'), iface, cost).value; Split(Join(out, '\n'), '\n') == out
  {
    hide ParseCost;
    hide Locate;
    hide NewCost;
    var lines := Split(text, '\n');
    var b := Locate(lines, iface).value;
    var out := Edit(lines, iface, cost).value;
    if b.cost.Some? {
      SetCostFree(lines[b.cost.value], cost);
    } else {
      NewCostFree(lines[b.open], cost);
    }
    forall i | 0 <= i < |out| ensures Free(out[i], '\n') {
    }
    SplitJoin(out, '\n');
  }

  /** Re-applying the same cost gives the identical text; applying another one gives what
      it would have given on the original text. */
  lemma TextLaterEditWins(text: string, iface: string, first: int, second: int)
    requires EditText(text, iface, first).Ok?
    ensures EditText(EditText(text, iface, first).value, iface, second) == EditText(text, iface, second)
  {
    hide Edit;
    hide Join;
    EditedLines(text, iface, first);
    LaterEditWins(Split(text, '\n'), iface, first, if second < 0 then 0 else second);
  }

  lemma TextEditIsIdempotent(text: string, iface: string, cost: int)
    requires EditText(text, iface, cost).Ok?
    ensures EditText(EditText(text, iface, cost).value, iface, cost) == EditText(text, iface, cost)
  {
    hide EditText;
    TextLaterEditWins(text, iface, cost, cost);
  }

  /** Edits of interfaces with disjoint blocks can be applied in any order. */
  lemma TextEditsCommute(text: string, i: string, j: string, ci: int, cj: int)
    requires EditText(text, i, ci).Ok? && EditText(text, j, cj).Ok?
    requires var lines := Split(text, '\n'); Disjoint(Locate(lines, i).value, Locate(lines, j).value)
    ensures EditText(EditText(text, i, ci).value, j, cj) == EditText(EditText(text, j, cj).value, i, ci)
  {
    hide Join;
    hide Put;
    hide Locate;
    var lines := Split(text, '\n');
    EditedLines(text, i, ci);
    EditedLines(text, j, cj);
    DisjointBlocksAreFree(lines, Locate(lines, i).value, Locate(lines, j).value);
    EditsCommute(lines, i, j, ci, cj);
  }

  // ----- what an edit is, written out

  /** Braces opened less braces closed in lines `i` to `j`. */
  function Level(lines: seq<string>, i: nat, j: nat): int
    requires i <= j <= |lines|
  {
    if i == j then 0
    else Level(lines, i, j - 1) + multiset(lines[j - 1])['{'] as int - multiset(lines[j - 1])['}'] as int
  }

  /** A block opened before line `i` is still open behind each of the lines up to `j`. */
  predicate StaysOpen(lines: seq<string>, i: nat, j: nat)
    requires i <= j <= |lines|
  {
    forall k | i < k <= j :: 1 + Level(lines, i, k) >= 1
  }

  lemma {:induction false} FirstIsFirst(marks: seq<Mark>, i: nat, kind: Kind, j: nat)
    requires i <= |marks| && i <= j < First(marks, i, kind)
    ensures !Is(marks[j], kind)
    decreases |marks| - i
  {
    if i < j {
      FirstIsFirst(marks, i + 1, kind, j);
    }
  }

  lemma LevelStep(lines: seq<string>, i: nat, k: nat)
    requires i <= k < |lines|
    ensures Level(lines, i, k + 1) == Level(lines, i, k) + BraceDelta(lines[k])
  {
    hide BraceDelta;
    BraceDeltaIs(lines[k]);
  }

  /** The depth stays above zero up to where it comes down. */
  lemma {:induction false} CloseIsFirst(lines: seq<string>, iface: string, i: nat, k: nat)
    requires i <= k <= |lines| && 1 + Level(lines, i, k) >= 1 && StaysOpen(lines, i, k)
    ensures var close := CloseAt(Marks(lines, iface), k, 1 + Level(lines, i, k));
            StaysOpen(lines, i, close) && (close < |lines| ==> 1 + Level(lines, i, close + 1) <= 0)
    decreases |lines| - k
  {
    hide IsHeader;
    hide IsCost;
    hide HasOpen;
    hide BraceDelta;
    hide Level;
    if k < |lines| {
      LevelStep(lines, i, k);
      if 1 + Level(lines, i, k + 1) >= 1 {
        CloseIsFirst(lines, iface, i, k + 1);
      }
    }
  }

  /** The first block of an interface: its header, the first brace from there on, and the
      line that brings the braces back. */
  ghost predicate BlockIs(lines: seq<string>, iface: string, b: Block) {
    && b.head <= b.open < b.close < |lines|
    && Heads(lines[b.head], iface) && (forall i | 0 <= i < b.head :: !Heads(lines[i], iface))
    && '{' in lines[b.open] && (forall i | b.head <= i < b.open :: '{' !in lines[i])
    && StaysOpen(lines, b.open + 1, b.close) && 1 + Level(lines, b.open + 1, b.close + 1) <= 0
  }

  lemma FirstHeader(lines: seq<string>, iface: string, n: nat)
    requires n == First(Marks(lines, iface), 0, Header)
    ensures n < |lines| ==> Heads(lines[n], iface)
    ensures forall i | 0 <= i < n :: !Heads(lines[i], iface)
  {
    hide IsHeader;
    hide Heads;
    forall i | 0 <= i < |lines| ensures IsHeader(lines[i], iface) <==> Heads(lines[i], iface) {
      HeaderIff(lines[i], iface);
    }
    forall i | 0 <= i < n ensures !IsHeader(lines[i], iface) {
      FirstIsFirst(Marks(lines, iface), 0, Header, i);
    }
  }

  lemma FirstOpen(lines: seq<string>, iface: string, head: nat, n: nat)
    requires head <= |lines| && n == First(Marks(lines, iface), head, Open)
    ensures (n < |lines| ==> '{' in lines[n]) && forall i | head <= i < n :: '{' !in lines[i]
  {
    hide IsHeader;
    forall i | head <= i < n ensures !HasOpen(lines[i]) {
      FirstIsFirst(Marks(lines, iface), head, Open, i);
    }
  }

  lemma FirstCost(lines: seq<string>, iface: string, open: nat, n: nat)
    requires open < |lines| && n == First(Marks(lines, iface), open + 1, Cost)
    ensures forall i | open < i < n :: !IsCost(lines[i])
  {
    hide IsHeader;
    forall i | open < i < n ensures !IsCost(lines[i]) {
      FirstIsFirst(Marks(lines, iface), open + 1, Cost, i);
    }
  }

  lemma LocateIs(lines: seq<string>, iface: string)
    requires Locate(lines, iface).Ok?
    ensures BlockIs(lines, iface, Locate(lines, iface).value)
    ensures var b := Locate(lines, iface).value;
            forall i | b.open < i < if b.cost.Some? then b.cost.value else b.close :: !IsCost(lines[i])
  {
    hide MarkOf;
    hide Heads;
    hide IsCost;
    hide First;
    hide CloseAt;
    hide Level;
    var marks, b := Marks(lines, iface), Locate(lines, iface).value;
    FirstHeader(lines, iface, b.head);
    FirstOpen(lines, iface, b.head, b.open);
    FirstCost(lines, iface, b.open, First(marks, b.open + 1, Cost));
    LevelOfNone(lines, b.open + 1);
    CloseIsFirst(lines, iface, b.open + 1, b.open + 1);
  }

  lemma LevelOfNone(lines: seq<string>, i: nat)
    requires i <= |lines|
    ensures Level(lines, i, i) == 0
  {
  }

  /** A search fails for want of a header, of a brace behind it, or of the line that closes. */
  lemma LocateFails(lines: seq<string>, iface: string)
    requires Locate(lines, iface).Err?
    ensures match Locate(lines, iface).error
            case NotFound => forall i | 0 <= i < |lines| :: !Heads(lines[i], iface)
            case NoBrace => exists h | 0 <= h < |lines| :: Heads(lines[h], iface)
                                                        && forall i | h <= i < |lines| :: '{' !in lines[i]
            case Unterminated => exists h, o | 0 <= h <= o < |lines| :: Heads(lines[h], iface) && '{' in lines[o]
                                                                     && StaysOpen(lines, o + 1, |lines|)
            case _ => false
  {
    hide MarkOf;
    hide Heads;
    hide IsCost;
    hide First;
    hide CloseAt;
    hide Level;
    var marks := Marks(lines, iface);
    var h := First(marks, 0, Header);
    FirstHeader(lines, iface, h);
    if h < |lines| {
      var o := First(marks, h, Open);
      FirstOpen(lines, iface, h, o);
      if o < |lines| {
        LevelOfNone(lines, o + 1);
        CloseIsFirst(lines, iface, o + 1, o + 1);
      }
    }
  }

  /** A cost line with another number, and nothing else changed. */
  ghost predicate Renumbered(line: string, out: string, cost: nat) {
    exists w, v, d, u, rest :: CostLine(line, w, v, d, u, rest)
                            && out == w + ("cost" + (v + (Dec(cost) + (u + (";" + rest)))))
  }

  /** `w` is what a line starts with in blanks and tabs. */
  ghost predicate StartsBlank(line: string, w: string, rest: string) {
    && line == w + rest
    && (forall i | 0 <= i < |w| :: w[i] == ' ' || w[i] == '\t')
    && (rest != "" ==> rest[0] != ' ' && rest[0] != '\t')
  }

  /** A cost line one tab deeper than the line with the brace. */
  ghost predicate Deeper(open: string, out: string, cost: nat) {
    exists w, rest :: StartsBlank(open, w, rest) && out == w + "\tcost " + Dec(cost) + ";"
  }

  /** An edit, line by line: within the first block of the interface the first cost line gets
      the new number and keeps everything else; without one, a line is inserted behind the
      opening brace; every other line stays. */
  ghost predicate EditIs(lines: seq<string>, out: seq<string>, b: Block, cost: nat)
    requires b.head <= b.open < b.close < |lines|
  {
    || (exists k, line | b.open < k < b.close && Renumbered(lines[k], line, cost) ::
          (forall i | b.open < i < k :: !IsCost(lines[i])) && out == lines[k := line])
    || ((forall i | b.open < i < b.close :: !IsCost(lines[i]))
        && exists line | Deeper(lines[b.open], line, cost) ::
             out == lines[..b.open + 1] + [line] + lines[b.open + 1..])
  }

  lemma SetCostIs(line: string, cost: nat)
    requires IsCost(line)
    ensures Renumbered(line, SetCost(line, cost), cost)
  {
    var w, v, d, u, rest := CostLineParts(line);
    Reassociate(w, "cost", v, Dec(cost) + (u + (";" + rest)));
  }

  lemma IndentIs(open: string)
    ensures StartsBlank(open, Indent(open), AfterBlanks(open))
  {
    BlanksSplit(open);
    AfterBlanksIsNone(open);
  }

  lemma CostText(w: string, n: string)
    ensures (w + "\t") + ("cost" + (" " + (n + ";"))) == w + "\tcost " + n + ";"
  {
  }

  lemma NewCostIs(open: string, cost: nat)
    ensures Deeper(open, NewCost(open, cost), cost)
  {
    hide StartsBlank;
    hide Dec;
    hide Indent;
    hide AfterBlanks;
    IndentIs(open);
    CostText(Indent(open), Dec(cost));
  }

  lemma PutIs(lines: seq<string>, iface: string, b: Block, cost: nat)
    requires Locate(lines, iface) == Ok(b)
    ensures EditIs(lines, Put(lines, b, cost), b, cost)
  {
    hide Locate;
    hide Renumbered;
    hide Deeper;
    hide SetCost;
    hide NewCost;
    hide IsCost;
    LocateIs(lines, iface);
    hide BlockIs;
    hide Level;
    if b.cost.Some? {
      SetCostIs(lines[b.cost.value], cost);
    } else {
      NewCostIs(lines[b.open], cost);
    }
  }

  lemma {:induction false} AfterBlanksIsNone(s: string)
    ensures AfterBlanks(s) != "" ==> !Blank(AfterBlanks(s)[0])
  {
    if s != "" && Blank(s[0]) {
      AfterBlanksIsNone(s[1..]);
    }
  }

  /** What becomes of a text: its lines are edited in the first block of exactly this
      interface, and joined again. */
  lemma EditTextIs(text: string, iface: string, cost: int)
    requires EditText(text, iface, cost).Ok?
    ensures iface != "" && 1 <= cost <= 65535
    ensures var lines, out := Split(text, '\n'), Split(EditText(text, iface, cost).value, '\n');
            exists b :: BlockIs(lines, iface, b) && EditIs(lines, out, b, cost)
  {
    hide Put;
    hide Locate;
    hide BlockIs;
    hide EditIs;
    var lines := Split(text, '\n');
    var b := Locate(lines, iface).value;
    EditedLines(text, iface, cost);
    LocateIs(lines, iface);
    PutIs(lines, iface, b, cost);
  }

  /** And what it takes for a text to be refused. */
  lemma EditTextFails(text: string, iface: string, cost: int)
    ensures match EditText(text, iface, cost)
            case Ok(_) => true
            case Err(EmptyName) => iface == ""
            case Err(NotANumber) => iface != "" && cost < 0
            case Err(OutOfRange) => iface != "" && (cost == 0 || cost > 65535)
            case Err(e) => iface != "" && 1 <= cost <= 65535 && Locate(Split(text, '\n'), iface) == Err(e)
  {
    hide Put;
    if EditText(text, iface, cost).Err? && iface != "" && 1 <= cost <= 65535 {
      LocateFails(Split(text, '\n'), iface);
    }
  }

  /** In whose block an edit happens: the header of the block names no other interface. */
  lemma EditHitsItsInterface(lines: seq<string>, iface: string, other: string)
    requires Locate(lines, iface).Ok? && '"' !in iface && '"' !in other
    ensures IsHeader(lines[Locate(lines, iface).value.head], other) ==> other == iface
  {
    hide IsHeader;
    var b := Locate(lines, iface).value;
    if IsHeader(lines[b.head], other) {
      HeaderNamesOne(lines[b.head], iface, other);
    }
  }

  /** The editor as it runs. */
  method EditOspfCost(text: string, iface: string, cost: int) returns (r: Result<string>)
    ensures r == EditText(text, iface, cost)
  {
    if iface == "" {
      return Err(EmptyName);
    }
    if cost < 0 {
      return Err(NotANumber);
    }
    if cost < 1 || cost > 65535 {
      return Err(OutOfRange);
    }
    var lines := Split(text, '\n');
    var b := FindBlock(lines, iface);
    if b.Err? {
      return Err(b.error);
    }
    var out := Rebuild(lines, b.value, cost);
    return Ok(Join(out, '\n'));
  }

  /** Locate the header, the opening brace, the closing brace and the cost statement. */
  method FindBlock(lines: seq<string>, iface: string) returns (r: Result<Block>)
    ensures r == Locate(lines, iface)
  {
    hide First;
    hide CloseAt;
    hide MarkOf;
    hide Fits;
    var n := |lines|;
    var headIdx := FindHeader(lines, iface);
    if headIdx >= n {
      return Err(NotFound);
    }
    var openIdx := FindOpen(lines, iface, headIdx);
    if openIdx >= n {
      return Err(NoBrace);
    }

    // brace balance just before the opening brace
    var parent := 0;
    for i := 0 to openIdx + 1 {
      parent := parent + BraceDelta(lines[i]);
    }
    parent := parent - BraceDelta(lines[openIdx]);

    var closeIdx, costIdx := ScanBlock(lines, iface, openIdx, parent);
    if closeIdx < 0 {
      return Err(Unterminated);
    }
    return Ok(Block(headIdx, openIdx, closeIdx, if costIdx >= 0 then Some(costIdx) else None));
  }

  method FindHeader(lines: seq<string>, iface: string) returns (i: nat)
    ensures i == First(Marks(lines, iface), 0, Header)
  {
    hide IsHeader;
    ghost var marks := Marks(lines, iface);
    i := 0;
    while i < |lines| && !IsHeader(lines[i], iface)
      invariant i <= |lines| && First(marks, 0, Header) == First(marks, i, Header)
    {
      i := i + 1;
    }
  }

  method FindOpen(lines: seq<string>, ghost iface: string, headIdx: nat) returns (i: nat)
    requires headIdx <= |lines|
    ensures i == First(Marks(lines, iface), headIdx, Open)
  {
    hide IsHeader;
    ghost var marks := Marks(lines, iface);
    i := headIdx;
    while i < |lines| && !HasOpen(lines[i])
      invariant i <= |lines| && First(marks, headIdx, Open) == First(marks, i, Open)
    {
      i := i + 1;
    }
  }

  /** The balance is one more than `parent` inside the block, and back again on the
      closing brace, whatever the balance before the block is. */
  method ScanBlock(lines: seq<string>, ghost iface: string, openIdx: nat, parent: int)
    returns (closeIdx: int, costIdx: int)
    requires openIdx < |lines|
    ensures var marks := Marks(lines, iface);
            var close, k := CloseAt(marks, openIdx + 1, 1), First(marks, openIdx + 1, Cost);
            && closeIdx == (if close == |lines| then -1 else close)
            && (closeIdx >= 0 ==> costIdx == if k < close then k else -1)
  {
    hide IsHeader;
    hide IsCost;
    hide BraceDelta;
    ghost var marks := Marks(lines, iface);
    var bal := parent + 1;
    closeIdx, costIdx := -1, -1;
    var i := openIdx + 1;
    while i < |lines|
      invariant openIdx < i <= |lines|
      invariant CloseAt(marks, openIdx + 1, 1) == CloseAt(marks, i, bal - parent)
      invariant -1 <= costIdx < i
      invariant First(marks, openIdx + 1, Cost) == if costIdx >= 0 then costIdx else First(marks, i, Cost)
    {
      bal := bal + BraceDelta(lines[i]);
      if bal <= parent {
        closeIdx := i;
        return;
      }
      if costIdx < 0 && IsCost(lines[i]) {
        costIdx := i;
      }
      i := i + 1;
    }
  }

  method Rebuild(lines: seq<string>, b: Block, cost: nat) returns (out: seq<string>)
    requires Fits(b, lines)
    ensures out == Put(lines, b, cost)
  {
    hide ParseCost;
    hide NewCost;
    out := [];
    if b.cost.Some? {
      for i := 0 to |lines|
        invariant |out| == i
        invariant forall k | 0 <= k < i :: out[k] == if k == b.cost.value then SetCost(lines[k], cost) else lines[k]
      {
        out := out + [if i == b.cost.value then SetCost(lines[i], cost) else lines[i]];
      }
    } else {
      for i := 0 to b.open + 1
        invariant out == lines[..i]
      {
        out := out + [lines[i]];
      }
      out := out + [NewCost(lines[b.open], cost)];
      for i := b.open + 1 to |lines|
        invariant out == lines[..b.open + 1] + [NewCost(lines[b.open], cost)] + lines[b.open + 1..i]
      {
        out := out + [lines[i]];
      }
    }
  }
}
