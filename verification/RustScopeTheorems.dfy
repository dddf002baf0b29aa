/**
 The regions the line classifier marks, over every run: which lines a `#[cfg(test)]`
 module or item covers, and what is left of it afterwards.
 */
module RustScopeTheorems {
  import opened Wrappers
  import opened RustLexer
  import opened RustScope

  // ----- Invariant -----

  predicate StrictlyIncreasing(s: seq<int>) {
    forall i, j :: 0 <= i < j < |s| ==> s[i] < s[j]
  }

  /** Module depths strictly increase and none is above the brace depth, nor is an open item's. */
  predicate WellNested(st: Scope) {
    && StrictlyIncreasing(st.modules)
    && (forall i :: 0 <= i < |st.modules| ==> st.modules[i] <= st.depth)
    && (st.item.Some? && st.item.value.isOpen ==> st.item.value.bodyDepth <= st.depth)
  }

  lemma PrefixIsIncreasing(s: seq<int>, prefix: seq<int>)
    requires StrictlyIncreasing(s) && prefix <= s
    ensures StrictlyIncreasing(prefix)
    ensures prefix != [] ==> forall i :: 0 <= i < |prefix| ==> prefix[i] <= prefix[|prefix| - 1]
  {
  }

  lemma StepKeepsNesting(st: Scope, line: Line)
    requires WellNested(st)
    ensures WellNested(Step(st, line))
  {
    hide PassedOver, PopClosed;
    if !PassedOver(st, line) {
      var resolved := Resolve(st, line);
      assert StrictlyIncreasing(resolved.modules);
      hide StrictlyIncreasing;
      PrefixIsIncreasing(resolved.modules, Step(st, line).modules);
    }
  }

  lemma {:induction false} RunKeepsNesting(st: Scope, lines: seq<Line>)
    requires WellNested(st)
    ensures WellNested(Run(st, lines))
    decreases |lines|
  {
    if lines != [] {
      StepKeepsNesting(st, lines[0]);
      RunKeepsNesting(Step(st, lines[0]), lines[1..]);
    }
  }

  // ----- Runs -----

  lemma {:induction false} VerdictAt(st: Scope, lines: seq<Line>, i: nat)
    requires i < |lines|
    ensures Verdicts(st, lines)[i] == Marked(Run(st, lines[..i]), lines[i])
    decreases i
  {
    if i == 0 {
      assert lines[..0] == [];
    } else {
      VerdictAt(Step(st, lines[0]), lines[1..], i - 1);
      assert lines[..i][1..] == lines[1..][..i - 1];
    }
  }

  lemma {:induction false} RunAppend(st: Scope, a: seq<Line>, b: seq<Line>)
    ensures Run(st, a + b) == Run(Run(st, a), b)
    decreases |a|
  {
    if a == [] {
      assert a + b == b;
    } else {
      assert (a + b)[1..] == a[1..] + b;
      RunAppend(Step(st, a[0]), a[1..], b);
    }
  }

  lemma RunNext(st: Scope, lines: seq<Line>, i: nat)
    requires i < |lines|
    ensures Run(st, lines[..i + 1]) == Step(Run(st, lines[..i]), lines[i])
  {
    assert lines[..i + 1] == lines[..i] + [lines[i]];
    RunAppend(st, lines[..i], [lines[i]]);
    assert Run(Run(st, lines[..i]), [lines[i]]) == Step(Run(st, lines[..i]), lines[i]);
  }

  // ----- Regions -----

  /** The brace depth at the end of line `i`, counting from line `from` at depth `base`. */
  function DepthAfter(base: int, lines: seq<Line>, from: nat, i: nat): int
    requires from <= i < |lines|
    decreases i
  {
    (if i == from then base else DepthAfter(base, lines, from, i - 1)) + lines[i].opens - lines[i].closes
  }

  /** A `#[cfg(test)]` line, any blank lines and further attributes, and then the item they belong to. */
  predicate Announces(lines: seq<Line>, item: nat) {
    && 0 < item < |lines|
    && lines[0].isTestAttribute
    && (forall i :: 0 < i < item ==> lines[i].isTestAttribute || lines[i].isBlank || lines[i].isAttribute)
    && !lines[item].isTestAttribute && !lines[item].isBlank && !lines[item].isAttribute
  }

  /** A module opens on line `item`, and line `last` is the first to end below its opening depth. */
  predicate ModuleRegion(base: int, lines: seq<Line>, item: nat, last: nat) {
    && item <= last < |lines| && Announces(lines, item) && lines[item].opensModule
    && (forall i :: item <= i < last ==> DepthAfter(base, lines, item, i) > base)
    && DepthAfter(base, lines, item, last) <= base
    && (forall i :: item <= i <= last ==> !lines[i].isTestAttribute)
  }

  lemma {:induction false} Announced(st: Scope, lines: seq<Line>, item: nat, i: nat)
    requires Announces(lines, item) && 0 < i <= item
    ensures Run(st, lines[..i]) == st.(pending := true)
    decreases i
  {
    RunNext(st, lines, i - 1);
    if i == 1 {
      assert Run(st, lines[..0]) == st;
    } else {
      Announced(st, lines, item, i - 1);
    }
  }

  lemma PopKeepsPrefix(modules: seq<int>, open: int, depth: int)
    requires depth >= open
    ensures PopClosed(modules + [open], depth) == modules + [open]
  {
  }

  /** While the region lasts, its module is on top of the stack and the depth is the plain brace count. */
  lemma {:induction false} InsideModule(st: Scope, lines: seq<Line>, item: nat, last: nat, i: nat)
    requires ModuleRegion(st.depth, lines, item, last) && item <= i < last
    ensures var r := Run(st, lines[..i + 1]);
            r.modules == st.modules + [st.depth + 1] && !r.pending && r.depth == DepthAfter(st.depth, lines, item, i)
    decreases i
  {
    hide Run, PopClosed;
    RunNext(st, lines, i);
    if i == item {
      Announced(st, lines, item, item);
    } else {
      InsideModule(st, lines, item, last, i - 1);
    }
    PopKeepsPrefix(st.modules, st.depth + 1, DepthAfter(st.depth, lines, item, i));
  }

  /** At the end of the region the stack is back to the enclosing modules that are still open. */
  lemma ModuleRegionEnds(st: Scope, lines: seq<Line>, item: nat, last: nat)
    requires ModuleRegion(st.depth, lines, item, last)
    ensures var r := Run(st, lines[..last + 1]);
            && r.depth == DepthAfter(st.depth, lines, item, last) && !r.pending
            && r.modules == PopClosed(st.modules, r.depth)
  {
    hide Run, PopClosed;
    RunNext(st, lines, last);
    if last == item {
      Announced(st, lines, item, item);
    } else {
      InsideModule(st, lines, item, last, last - 1);
    }
    ModuleCloses(Run(st, lines[..last]), lines[last], st.modules, st.depth + 1);
  }

  lemma ModuleCloses(st: Scope, line: Line, modules: seq<int>, open: int)
    requires !PassedOver(st, line) && Resolve(st, line).modules == modules + [open]
    requires st.depth + line.opens - line.closes < open
    ensures Step(st, line).modules == PopClosed(modules, st.depth + line.opens - line.closes)
  {
  }

  lemma {:induction false} ItemStaysEmpty(st: Scope, lines: seq<Line>, item: nat, last: nat, i: nat)
    requires ModuleRegion(st.depth, lines, item, last) && st.item.None? && i <= last
    ensures Run(st, lines[..i + 1]).item.None?
    decreases i
  {
    hide Run, PopClosed;
    RunNext(st, lines, i);
    if i < item {
      Announced(st, lines, item, i + 1);
    } else if i == item {
      Announced(st, lines, item, item);
    } else {
      ItemStaysEmpty(st, lines, item, last, i - 1);
      InsideModule(st, lines, item, last, i - 1);
    }
  }

  /**
   A test module is marked from its attribute through exactly the first line that ends
   below its opening depth: outside every other region the line after that one is marked
   only if it is itself a `#[cfg(test)]` attribute.
   */
  lemma ModuleRegionIsMarked(st: Scope, lines: seq<Line>, item: nat, last: nat)
    requires ModuleRegion(st.depth, lines, item, last)
    ensures forall i :: 0 <= i <= last ==> Verdicts(st, lines)[i]
    ensures !st.Active() && last + 1 < |lines| ==>
            (Verdicts(st, lines)[last + 1] <==> lines[last + 1].isTestAttribute)
  {
    hide Run, Verdicts, Announces, DepthAfter, PopClosed;
    forall i | 0 <= i <= last
      ensures Verdicts(st, lines)[i]
    {
      LineOfModule(st, lines, item, last, i);
      VerdictAt(st, lines, i);
    }
    if !st.Active() && last + 1 < |lines| {
      VerdictAt(st, lines, last + 1);
      ModuleRegionEnds(st, lines, item, last);
      ItemStaysEmpty(st, lines, item, last, last);
      PopNothing(Run(st, lines[..last + 1]).depth);
    }
  }

  lemma PopNothing(depth: int)
    ensures PopClosed([], depth) == []
  {
  }

  lemma LineOfModule(st: Scope, lines: seq<Line>, item: nat, last: nat, i: nat)
    requires ModuleRegion(st.depth, lines, item, last) && i <= last
    ensures Marked(Run(st, lines[..i]), lines[i])
  {
    hide Run;
    if 0 < i <= item {
      Announced(st, lines, item, i);
    } else if item < i {
      InsideModule(st, lines, item, last, i - 1);
    }
  }

  // ----- Items -----

  /** The depth below which an item that opens on line `open` is over. */
  function DepthBefore(base: int, lines: seq<Line>, item: nat, i: nat): int
    requires item <= i < |lines|
  {
    if i == item then base else DepthAfter(base, lines, item, i - 1)
  }

  /** An item with a body: line `open` has its first brace, and line `last` is the first to end outside the body. */
  predicate ItemRegion(base: int, lines: seq<Line>, item: nat, open: nat, last: nat) {
    && item <= open <= last < |lines| && Announces(lines, item) && !lines[item].opensModule
    && (forall i :: item <= i < open ==> lines[i].opens == 0 && !lines[i].hasSemicolon)
    && lines[open].opens > 0
    && (forall i :: open <= i < last ==> DepthAfter(base, lines, item, i) > DepthBefore(base, lines, item, open))
    && DepthAfter(base, lines, item, last) <= DepthBefore(base, lines, item, open)
    && (forall i :: item <= i <= last ==> !lines[i].isTestAttribute)
  }

  /** An item without a body: line `last` is the first with a semicolon. */
  predicate BodilessRegion(lines: seq<Line>, item: nat, last: nat) {
    && item <= last < |lines| && Announces(lines, item) && !lines[item].opensModule
    && (forall i :: item <= i <= last ==> lines[i].opens == 0 && !lines[i].isTestAttribute)
    && (forall i :: item <= i < last ==> !lines[i].hasSemicolon) && lines[last].hasSemicolon
  }

  /** Before its first brace the item waits in the slot. */
  lemma {:induction false} WaitingItem(st: Scope, lines: seq<Line>, item: nat, i: nat)
    requires Announces(lines, item) && !lines[item].opensModule && item <= i < |lines|
    requires forall j :: item <= j <= i ==> lines[j].opens == 0 && !lines[j].hasSemicolon && !lines[j].isTestAttribute
    ensures var r := Run(st, lines[..i + 1]);
            r.item == Some(Item(false, 0)) && !r.pending && r.depth == DepthAfter(st.depth, lines, item, i)
    decreases i
  {
    hide Run, PopClosed;
    RunNext(st, lines, i);
    if i == item {
      Announced(st, lines, item, item);
    } else {
      WaitingItem(st, lines, item, i - 1);
    }
  }

  lemma {:induction false} InsideItem(st: Scope, lines: seq<Line>, item: nat, open: nat, last: nat, i: nat)
    requires ItemRegion(st.depth, lines, item, open, last) && open <= i <= last
    ensures var r := Run(st, lines[..i + 1]);
            && !r.pending && r.depth == DepthAfter(st.depth, lines, item, i)
            && r.item == if i < last then Some(Item(true, DepthBefore(st.depth, lines, item, open) + 1)) else None
    decreases i
  {
    hide Run, PopClosed;
    RunNext(st, lines, i);
    if i > open {
      InsideItem(st, lines, item, open, last, i - 1);
    } else if i == item {
      Announced(st, lines, item, item);
    } else {
      WaitingItem(st, lines, item, i - 1);
    }
  }

  lemma {:induction false} NoModules(st: Scope, lines: seq<Line>, item: nat, i: nat)
    requires Announces(lines, item) && !lines[item].opensModule && i < |lines| && st.modules == []
    requires forall j :: item < j <= i ==> !Run(st, lines[..j]).pending
    ensures Run(st, lines[..i + 1]).modules == []
    decreases i
  {
    hide Run;
    RunNext(st, lines, i);
    if i < item {
      Announced(st, lines, item, i + 1);
    } else if i == item {
      Announced(st, lines, item, item);
    } else {
      NoModules(st, lines, item, i - 1);
    }
  }

  /** A test item with a body is marked from its attribute through exactly the line that closes the body. */
  lemma ItemRegionIsMarked(st: Scope, lines: seq<Line>, item: nat, open: nat, last: nat)
    requires ItemRegion(st.depth, lines, item, open, last)
    ensures forall i :: 0 <= i <= last ==> Verdicts(st, lines)[i]
    ensures st.modules == [] && last + 1 < |lines| ==>
            (Verdicts(st, lines)[last + 1] <==> lines[last + 1].isTestAttribute)
  {
    hide Run, Verdicts, Announces, DepthAfter, DepthBefore, PopClosed;
    forall i | 0 <= i <= last
      ensures Verdicts(st, lines)[i]
    {
      LineOfItem(st, lines, item, open, last, i);
      VerdictAt(st, lines, i);
    }
    if st.modules == [] && last + 1 < |lines| {
      VerdictAt(st, lines, last + 1);
      ItemRegionEnds(st, lines, item, open, last);
    }
  }

  lemma LineOfItem(st: Scope, lines: seq<Line>, item: nat, open: nat, last: nat, i: nat)
    requires ItemRegion(st.depth, lines, item, open, last) && i <= last
    ensures Marked(Run(st, lines[..i]), lines[i])
    ensures i > 0 ==> (Run(st, lines[..i]).pending <==> i <= item)
  {
    hide Run;
    if 0 < i <= item {
      Announced(st, lines, item, i);
    } else if item < i <= open {
      WaitingItem(st, lines, item, i - 1);
    } else if open < i {
      InsideItem(st, lines, item, open, last, i - 1);
    }
  }

  lemma ItemRegionEnds(st: Scope, lines: seq<Line>, item: nat, open: nat, last: nat)
    requires ItemRegion(st.depth, lines, item, open, last) && st.modules == []
    ensures var r := Run(st, lines[..last + 1]); !r.pending && !r.Active()
  {
    hide Run;
    forall i | item < i <= last
      ensures !Run(st, lines[..i]).pending
    {
      LineOfItem(st, lines, item, open, last, i);
    }
    InsideItem(st, lines, item, open, last, last);
    NoModules(st, lines, item, last);
  }

  /** A test item without a body is marked through exactly the line with its semicolon. */
  lemma BodilessRegionIsMarked(st: Scope, lines: seq<Line>, item: nat, last: nat)
    requires BodilessRegion(lines, item, last)
    ensures forall i :: 0 <= i <= last ==> Verdicts(st, lines)[i]
    ensures st.modules == [] && last + 1 < |lines| ==>
            (Verdicts(st, lines)[last + 1] <==> lines[last + 1].isTestAttribute)
  {
    hide Run, Verdicts, Announces, PopClosed;
    forall i | 0 <= i <= last
      ensures Verdicts(st, lines)[i]
    {
      LineOfBodiless(st, lines, item, last, i);
      VerdictAt(st, lines, i);
    }
    if st.modules == [] && last + 1 < |lines| {
      VerdictAt(st, lines, last + 1);
      BodilessRegionEnds(st, lines, item, last);
    }
  }

  lemma LineOfBodiless(st: Scope, lines: seq<Line>, item: nat, last: nat, i: nat)
    requires BodilessRegion(lines, item, last) && i <= last
    ensures var r := Run(st, lines[..i]);
            Marked(r, lines[i]) && (i > 0 ==> (r.pending <==> i <= item)) && (item < i ==> r.item == Some(Item(false, 0)))
  {
    hide Run;
    if 0 < i <= item {
      Announced(st, lines, item, i);
    } else if item < i {
      WaitingItem(st, lines, item, i - 1);
    }
  }

  lemma BodilessRegionEnds(st: Scope, lines: seq<Line>, item: nat, last: nat)
    requires BodilessRegion(lines, item, last) && st.modules == []
    ensures var r := Run(st, lines[..last + 1]); !r.pending && !r.Active()
  {
    hide Run;
    forall i | item < i <= last
      ensures !Run(st, lines[..i]).pending
    {
      LineOfBodiless(st, lines, item, last, i);
    }
    LineOfBodiless(st, lines, item, last, last);
    Announced(st, lines, item, item);
    RunNext(st, lines, last);
    NoModules(st, lines, item, last);
  }

  // ----- Nesting -----

  /** Everything from a `#[cfg(test)]` line through the end of the module or item that it announces. */
  ghost predicate TestRegion(base: int, lines: seq<Line>, item: nat, last: nat) {
    || ModuleRegion(base, lines, item, last)
    || (exists open: nat :: ItemRegion(base, lines, item, open, last))
    || BodilessRegion(lines, item, last)
  }

  /** An open item outlives a nested module unless the brace depth falls below its body. */
  lemma {:induction false} OuterItemAcrossModule(st: Scope, lines: seq<Line>, item: nat, last: nat, i: nat)
    requires ModuleRegion(st.depth, lines, item, last) && item <= i <= last
    requires st.item.Some? && st.item.value.isOpen && st.item.value.bodyDepth <= st.depth
    ensures Run(st, lines[..i + 1]).item ==
            if DepthAfter(st.depth, lines, item, i) >= st.item.value.bodyDepth then st.item else None
    decreases i
  {
    hide Run, PopClosed;
    RunNext(st, lines, i);
    if i == item {
      Announced(st, lines, item, item);
    } else {
      OuterItemAcrossModule(st, lines, item, last, i - 1);
      InsideModule(st, lines, item, last, i - 1);
    }
  }

  /** What a test region leaves of the item it is nested in. */
  lemma OuterItemAfterRegion(st: Scope, lines: seq<Line>, item: nat, last: nat)
    requires TestRegion(st.depth, lines, item, last)
    requires WellNested(st) && st.item.Some? && st.item.value.isOpen
    ensures last < |lines| && item <= last
    ensures var r := Run(st, lines[..last + 1]);
            && !r.pending && (st.modules == [] ==> r.modules == [])
            && r.item == if lines[item].opensModule && DepthAfter(st.depth, lines, item, last) >= st.item.value.bodyDepth
                         then st.item else None
  {
    hide Run, PopClosed;
    if ModuleRegion(st.depth, lines, item, last) {
      OuterItemAcrossModule(st, lines, item, last, last);
      ModuleRegionEnds(st, lines, item, last);
      PopNothing(Run(st, lines[..last + 1]).depth);
    } else if open: nat :| ItemRegion(st.depth, lines, item, open, last) {
      InsideItem(st, lines, item, open, last, last);
      if st.modules == [] {
        ItemRegionEnds(st, lines, item, open, last);
      }
    } else {
      LineOfBodiless(st, lines, item, last, last);
      Announced(st, lines, item, item);
      RunNext(st, lines, last);
      if st.modules == [] {
        BodilessRegionEnds(st, lines, item, last);
      }
    }
  }

  /**
   There is one item slot. Inside an open test item, outside every test module, the line after
   a nested test region is marked exactly when it is itself an attribute, or the region was a
   module and the depth is still inside the item. A nested item thus ends the marking of the
   outer one, although any line would have been marked in its place.
   */
  lemma NestedRegionInsideItem(st: Scope, lines: seq<Line>, item: nat, last: nat)
    requires TestRegion(st.depth, lines, item, last) && last + 1 < |lines|
    requires WellNested(st) && st.item.Some? && st.item.value.isOpen && st.modules == []
    ensures Verdicts(st, lines)[last + 1] <==>
            || lines[last + 1].isTestAttribute
            || (lines[item].opensModule && DepthAfter(st.depth, lines, item, last) >= st.item.value.bodyDepth)
    ensures Marked(st, lines[last + 1])
  {
    hide Run, TestRegion, Verdicts, DepthAfter;
    OuterItemAfterRegion(st, lines, item, last);
    VerdictAt(st, lines, last + 1);
  }
}
