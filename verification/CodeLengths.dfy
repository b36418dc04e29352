/** Run-length coding of code lengths: what scan_tree and send_tree of trees.c
    produce, and that it expands to the original lengths. */
module CodeLengths {
  import opened Bits
  import opened HuffmanCode
  import opened InflateSpec

  /** Symbols of the code length code with their repeat counts. */
  datatype Item = Len(l: nat) | Prev(n: nat) | Zeros3(n: nat) | Zeros11(n: nat)

  predicate ValidItem(i: Item)
  {
    match i
    case Len(l) => l <= MAXBITS
    case Prev(n) => 3 <= n <= 6
    case Zeros3(n) => 3 <= n <= 10
    case Zeros11(n) => 11 <= n <= 138
  }

  function Sym(i: Item): nat
  {
    match i case Len(l) => l case Prev(_) => 16 case Zeros3(_) => 17 case Zeros11(_) => 18
  }

  /** What the decoder has after an item, if it accepts it. */
  function AddItem(have: seq<nat>, i: Item): seq<nat>
    requires i.Prev? ==> have != []
  {
    match i
    case Len(l) => have + [l]
    case Prev(n) => have + Repeat(have[|have| - 1], n)
    case Zeros3(n) => have + Repeat(0, n)
    case Zeros11(n) => have + Repeat(0, n)
  }

  predicate Addable(have: seq<nat>, items: seq<Item>)
    decreases |items|
  {
    items == [] ||
    (ValidItem(items[0]) && (items[0].Prev? ==> have != []) && Addable(AddItem(have, items[0]), items[1..]))
  }

  function AddItems(have: seq<nat>, items: seq<Item>): (r: seq<nat>)
    requires Addable(have, items)
    ensures have <= r
    decreases |items|
  {
    if items == [] then have else AddItems(AddItem(have, items[0]), items[1..])
  }

  // ---------- what the compressor emits ----------

  const GUARD: nat := 0xFFFF

  /** The length that follows symbol n; a guard after the last one. */
  function NextLen(lens: seq<nat>, n: nat): nat
  {
    if n + 1 < |lens| then lens[n + 1] else GUARD
  }

  /** Loop variables of scan_tree and send_tree. */
  datatype Run = Run(prevlen: int, count: nat, maxCount: nat, minCount: nat)

  function FirstRun(lens: seq<nat>): Run
    requires lens != []
  {
    if lens[0] == 0 then Run(-1, 0, 138, 3) else Run(-1, 0, 7, 4)
  }

  function NextRun(curlen: nat, nextlen: nat): Run
  {
    if nextlen == 0 then Run(curlen, 0, 138, 3)
    else if curlen == nextlen then Run(curlen, 0, 6, 3)
    else Run(curlen, 0, 7, 4)
  }

  function Lens(l: nat, n: nat): (r: seq<Item>)
    ensures |r| == n
  {
    if n == 0 then [] else [Len(l)] + Lens(l, n - 1)
  }

  /** The items for a finished run of count symbols of length curlen. */
  function RunItems(curlen: nat, prevlen: int, count: nat, minCount: nat): seq<Item>
  {
    if count < minCount then Lens(curlen, count)
    else if curlen != 0 then
      if curlen != prevlen && count > 0 then [Len(curlen), Prev(count - 1)] else [Prev(count)]
    else if count <= 10 then [Zeros3(count)]
    else [Zeros11(count)]
  }

  /** All items from symbol n on. */
  function Items(lens: seq<nat>, n: nat, r: Run): seq<Item>
    requires n <= |lens|
    decreases |lens| - n
  {
    if n == |lens| then []
    else
      var curlen, nextlen, count := lens[n], NextLen(lens, n), r.count + 1;
      if count < r.maxCount && curlen == nextlen then Items(lens, n + 1, r.(count := count))
      else RunItems(curlen, r.prevlen, count, r.minCount) + Items(lens, n + 1, NextRun(curlen, nextlen))
  }

  function TreeItems(lens: seq<nat>): seq<Item>
    requires lens != []
  {
    Items(lens, 0, FirstRun(lens))
  }

  /** The bounds on the run counters suit the length that comes next. */
  predicate RunOk(r: Run, curlen: nat)
  {
    && r.count < r.maxCount
    && (if curlen == 0 then r.maxCount == 138 && r.minCount == 3
        else if curlen == r.prevlen then r.maxCount == 6 && r.minCount == 3
        else r.maxCount == 7 && r.minCount == 4)
  }

  lemma {:induction false} LensAdd(have: seq<nat>, l: nat, n: nat)
    requires l <= MAXBITS
    ensures Addable(have, Lens(l, n)) && AddItems(have, Lens(l, n)) == have + Repeat(l, n)
    decreases n
  {
    if n > 0 {
      LensAdd(have + [l], l, n - 1);
      assert Lens(l, n)[1..] == Lens(l, n - 1);
      assert have + [l] + Repeat(l, n - 1) == have + Repeat(l, n);
    } else {
      assert have + Repeat(l, 0) == have;
    }
  }

  lemma {:induction false} AddConcat(have: seq<nat>, a: seq<Item>, b: seq<Item>)
    requires Addable(have, a) && Addable(AddItems(have, a), b)
    ensures Addable(have, a + b) && AddItems(have, a + b) == AddItems(AddItems(have, a), b)
    decreases |a|
  {
    hide AddItem, ValidItem;
    if a == [] {
      assert a + b == b;
    } else {
      assert (a + b)[1..] == a[1..] + b;
      AddConcat(AddItem(have, a[0]), a[1..], b);
    }
  }

  lemma OneItem(have: seq<nat>, x: Item)
    requires ValidItem(x) && (x.Prev? ==> have != [])
    ensures Addable(have, [x]) && AddItems(have, [x]) == AddItem(have, x)
  {
    hide AddItem, ValidItem;
    assert [x][1..] == [];
  }

  /** One explicit length and n copies of it. */
  lemma LenThenPrev(have: seq<nat>, l: nat, n: nat)
    requires l <= MAXBITS && 3 <= n <= 6
    ensures Addable(have, [Len(l), Prev(n)]) && AddItems(have, [Len(l), Prev(n)]) == have + Repeat(l, n + 1)
  {
    hide Addable, AddItems;
    OneItem(have, Len(l));
    OneItem(have + [l], Prev(n));
    AddConcat(have, [Len(l)], [Prev(n)]);
    assert [Len(l)] + [Prev(n)] == [Len(l), Prev(n)];
    assert have + [l] + Repeat(l, n) == have + Repeat(l, n + 1);
  }

  /** The items of one run expand to the run. */
  lemma RunAdds(have: seq<nat>, curlen: nat, r: Run)
    requires curlen <= MAXBITS && RunOk(r, curlen)
    requires curlen == r.prevlen ==> have != [] && have[|have| - 1] == curlen
    ensures var items := RunItems(curlen, r.prevlen, r.count + 1, r.minCount);
            Addable(have, items) && AddItems(have, items) == have + Repeat(curlen, r.count + 1)
  {
    hide Addable, AddItems;
    var n := r.count + 1;
    if n < r.minCount {
      LensAdd(have, curlen, n);
    } else if curlen != 0 {
      if curlen != r.prevlen {
        LenThenPrev(have, curlen, n - 1);
      } else {
        OneItem(have, Prev(n));
      }
    } else {
      OneItem(have, if n <= 10 then Zeros3(n) else Zeros11(n));
    }
  }

  /** Expanding the items emitted from symbol n on, after the symbols before the
      pending run, gives all the lengths. */
  lemma {:induction false} ItemsAdd(before: seq<nat>, lens: seq<nat>, n: nat, r: Run)
    requires InRange(lens) && n <= |lens|
    requires n < |lens| ==>
               && RunOk(r, lens[n]) && r.count <= n
               && (forall i :: n - r.count <= i < n ==> lens[i] == lens[n])
               && (if r.prevlen == -1 then n == r.count else n > r.count && r.prevlen == lens[n - r.count - 1])
    requires n == |lens| ==> r.count == 0
    ensures var have := before + lens[..n - r.count];
            Addable(have, Items(lens, n, r)) && AddItems(have, Items(lens, n, r)) == before + lens
    decreases |lens| - n
  {
    hide Addable, AddItems, RunItems;
    var have := before + lens[..n - r.count];
    if n == |lens| {
      assert lens[..n] == lens;
      NothingAdds(have);
    } else {
      var curlen, nextlen, count := lens[n], NextLen(lens, n), r.count + 1;
      if count < r.maxCount && curlen == nextlen {
        ItemsAdd(before, lens, n + 1, r.(count := count));
      } else {
        RunAdds(have, curlen, r);
        assert have + Repeat(curlen, count) == before + lens[..n + 1];
        ItemsAdd(before, lens, n + 1, NextRun(curlen, nextlen));
        AddConcat(have, RunItems(curlen, r.prevlen, count, r.minCount), Items(lens, n + 1, NextRun(curlen, nextlen)));
      }
    }
  }

  lemma NothingAdds(have: seq<nat>)
    ensures Addable(have, []) && AddItems(have, []) == have
  {
  }

  /** The items of a tree expand to its lengths, whatever came before. */
  lemma TreeItemsAdd(before: seq<nat>, lens: seq<nat>)
    requires InRange(lens) && lens != []
    ensures Addable(before, TreeItems(lens)) && AddItems(before, TreeItems(lens)) == before + lens
  {
    hide Addable, AddItems, Items;
    assert before + lens[..0] == before;
    ItemsAdd(before, lens, 0, FirstRun(lens));
  }
}
