// The bounded snapshot walk: pruning on the way down captures what filtering every file would.
module Walk {
  import opened Wrappers
  import opened PathBytes
  import opened Glob
  import opened IgnoreRules

  /** A directory entry. A denied class, and whether it is a repository of its own, belong to a directory. */
  datatype Node =
    | File
    | Link(readable: bool)
    | Special
    | Dir(patterns: seq<Pattern>, entries: seq<Entry>, denied: bool, nested: bool)

  /** Encoded: the name's bytes are not valid UTF-8, so it is recorded but never opened. */
  datatype Entry = Entry(name: Text, encoded: bool, node: Node)

  datatype Kind = Regular | Symlink | InvalidPath
  datatype Candidate = Candidate(path: Path, kind: Kind)

  datatype Reason = Denied | NestedRepository | PolicyExcluded | Unverifiable
  datatype Exclusion = Exclusion(path: Path, reason: Reason)

  /** The rules of a directory's own ignore files. */
  function Own(patterns: seq<Pattern>, dir: Path): (rules: seq<Rule>)
    ensures |rules| == |patterns| && forall r | r in rules :: r.base == dir
  {
    if patterns == [] then [] else [Rule(dir, patterns[0])] + Own(patterns[1..], dir)
  }

  /** What a walk has found: candidates, exclusions and rules, each in the order of discovery. */
  datatype Finds = Finds(candidates: seq<Candidate>, excluded: seq<Exclusion>, rules: seq<Rule>)

  const NOTHING := Finds([], [], [])

  function Then(a: Finds, b: Finds): Finds {
    Finds(a.candidates + b.candidates, a.excluded + b.excluded, a.rules + b.rules)
  }

  /** Why a directory is not entered. */
  function DirBarrier(node: Node, rules: seq<Rule>, path: Path): Option<Reason>
    requires node.Dir?
  {
    if node.denied then Some(Denied)
    else if node.nested then Some(NestedRepository)
    else if Ignored(rules, path, true) then Some(PolicyExcluded)
    else None
  }

  function WalkEntry(e: Entry, dir: Path, rules: seq<Rule>): Finds
    decreases e, 0
  {
    var path := dir + [e.name];
    if e.encoded then NOTHING.(candidates := [Candidate(path, InvalidPath)])
    else if e.node.Dir? then
      match DirBarrier(e.node, rules, path)
      case Some(reason) => NOTHING.(excluded := [Exclusion(path, reason)])
      case None =>
        var own := Own(e.node.patterns, path);
        Then(NOTHING.(rules := own), WalkEntries(e.node.entries, path, rules + own))
    else if Ignored(rules, path, false) then NOTHING
    else match e.node
         case File => NOTHING.(candidates := [Candidate(path, Regular)])
         case Link(readable) =>
           if readable then NOTHING.(candidates := [Candidate(path, Symlink)])
           else NOTHING.(excluded := [Exclusion(path, Unverifiable)])
         case _ => NOTHING
  }

  function WalkEntries(entries: seq<Entry>, dir: Path, rules: seq<Rule>): Finds
    decreases entries, 1
  {
    if entries == [] then NOTHING else Then(WalkEntry(entries[0], dir, rules), WalkEntries(entries[1..], dir, rules))
  }

  function WalkTree(root: Node): Finds
    requires root.Dir?
  {
    var own := Own(root.patterns, []);
    Then(NOTHING.(rules := own), WalkEntries(root.entries, [], own))
  }

  /** The walk as it runs, appending to shared lists. */
  class Walker {
    var finds: Finds

    constructor ()
      ensures finds == NOTHING
    {
      finds := NOTHING;
    }

    method Visit(node: Node, dir: Path, inherited: seq<Rule>)
      requires node.Dir?
      modifies this
      ensures var own := Own(node.patterns, dir);
              finds == Then(Then(old(finds), NOTHING.(rules := own)), WalkEntries(node.entries, dir, inherited + own))
      decreases node
    {
      hide Ignored, Own, WalkEntries;
      var own := Own(node.patterns, dir);
      finds := finds.(rules := finds.rules + own);
      assert finds == Then(old(finds), NOTHING.(rules := own));
      var rules := if own == [] then inherited else inherited + own;
      assert rules == inherited + own;
      ghost var before := finds;
      var i := 0;
      assert node.entries[0..] == node.entries;
      while i < |node.entries|
        invariant 0 <= i <= |node.entries|
        invariant Then(finds, WalkEntries(node.entries[i..], dir, rules)) == Then(before, WalkEntries(node.entries, dir, rules))
      {
        var e := node.entries[i];
        ghost var start := finds;
        var path := dir + [e.name];
        if e.encoded {
          finds := finds.(candidates := finds.candidates + [Candidate(path, InvalidPath)]);
        } else if e.node.Dir? {
          var barrier := DirBarrier(e.node, rules, path);
          if barrier.Some? {
            finds := finds.(excluded := finds.excluded + [Exclusion(path, barrier.value)]);
          } else {
            Visit(e.node, path, rules);
            DirFound(start, e, dir, rules);
          }
        } else {
          var ignored := IsIgnored(rules, path, false);
          if ignored {
          } else if e.node.Link? {
            if e.node.readable {
              finds := finds.(candidates := finds.candidates + [Candidate(path, Symlink)]);
            } else {
              finds := finds.(excluded := finds.excluded + [Exclusion(path, Unverifiable)]);
            }
          } else if e.node.File? {
            finds := finds.(candidates := finds.candidates + [Candidate(path, Regular)]);
          }
        }
        assert finds == Then(start, WalkEntry(e, dir, rules));
        EntryFound(start, finds, node.entries[i..], dir, rules);
        assert node.entries[i..][1..] == node.entries[i + 1..];
        i := i + 1;
      }
      assert node.entries[i..] == [];
      NothingFound(finds, dir, rules);
    }
  }

  lemma NothingFound(finds: Finds, dir: Path, rules: seq<Rule>)
    ensures Then(finds, WalkEntries([], dir, rules)) == finds
  {
  }

  lemma DirFound(start: Finds, e: Entry, dir: Path, rules: seq<Rule>)
    requires !e.encoded && e.node.Dir? && DirBarrier(e.node, rules, dir + [e.name]).None?
    ensures var own := Own(e.node.patterns, dir + [e.name]);
            Then(Then(start, NOTHING.(rules := own)), WalkEntries(e.node.entries, dir + [e.name], rules + own))
            == Then(start, WalkEntry(e, dir, rules))
  {
    var own := Own(e.node.patterns, dir + [e.name]);
    ThenAssoc(start, NOTHING.(rules := own), WalkEntries(e.node.entries, dir + [e.name], rules + own));
    hide WalkEntries, Then, Own, Ignored;
  }

  lemma ThenAssoc(a: Finds, b: Finds, c: Finds)
    ensures Then(Then(a, b), c) == Then(a, Then(b, c))
    ensures Then(a, NOTHING) == a == Then(NOTHING, a)
  {
    Assoc(a.candidates, b.candidates, c.candidates);
    Assoc(a.excluded, b.excluded, c.excluded);
    Assoc(a.rules, b.rules, c.rules);
  }

  lemma EntryFound(start: Finds, now: Finds, entries: seq<Entry>, dir: Path, rules: seq<Rule>)
    requires entries != [] && now == Then(start, WalkEntry(entries[0], dir, rules))
    ensures Then(now, WalkEntries(entries[1..], dir, rules)) == Then(start, WalkEntries(entries, dir, rules))
  {
    ThenAssoc(start, WalkEntry(entries[0], dir, rules), WalkEntries(entries[1..], dir, rules));
    hide WalkEntry;
  }

  // ----- the flat filter

  /** Something the walk could record, and whether a denied directory or a nested repository is above it. */
  datatype Item = Item(path: Path, kind: Kind, pruned: bool)

  function FlatEntry(e: Entry, dir: Path, pruned: bool): seq<Item>
    decreases e, 0
  {
    var path := dir + [e.name];
    if e.encoded then [Item(path, InvalidPath, pruned)]
    else match e.node
         case Dir(_, entries, denied, nested) => Flat(entries, path, pruned || denied || nested)
         case File => [Item(path, Regular, pruned)]
         case Link(readable) => if readable then [Item(path, Symlink, pruned)] else []
         case Special => []
  }

  /** Every item below a directory, in order. */
  function Flat(entries: seq<Entry>, dir: Path, pruned: bool): seq<Item>
    decreases entries, 1
  {
    if entries == [] then [] else FlatEntry(entries[0], dir, pruned) + Flat(entries[1..], dir, pruned)
  }

  /** The only items kept: not pruned, and not ignored; of a name that is not UTF-8 only the directories above count. */
  predicate Kept(i: Item, rules: seq<Rule>) {
    !i.pruned && !(if i.kind.InvalidPath? then AboveIgnored(rules, i.path) else Ignored(rules, i.path, false))
  }

  function Filter(items: seq<Item>, rules: seq<Rule>): seq<Candidate> {
    if items == [] then []
    else (if Kept(items[0], rules) then [Candidate(items[0].path, items[0].kind)] else []) + Filter(items[1..], rules)
  }

  lemma {:induction false} FilterAppend(a: seq<Item>, b: seq<Item>, rules: seq<Rule>)
    ensures Filter(a + b, rules) == Filter(a, rules) + Filter(b, rules)
  {
    hide Kept;
    if a == [] {
      assert a + b == b;
    } else {
      FilterAppend(a[1..], b, rules);
      assert (a + b)[1..] == a[1..] + b && (a + b)[0] == a[0];
      Assoc(if Kept(a[0], rules) then [Candidate(a[0].path, a[0].kind)] else [], Filter(a[1..], rules), Filter(b, rules));
    }
  }

  lemma {:induction false} FilterNothing(items: seq<Item>, rules: seq<Rule>)
    requires forall i | i in items :: !Kept(i, rules)
    ensures Filter(items, rules) == []
  {
    hide Kept;
    if items != [] {
      FilterNothing(items[1..], rules);
    }
  }

  predicate Under(dir: Path, path: Path) {
    path == dir || Inside(dir, path)
  }

  lemma UnderTwice(a: Path, name: Text, c: Path)
    requires Under(a + [name], c)
    ensures Inside(a, c)
  {
    assert c[..|a|] == c[..|a| + 1][..|a|] == (a + [name])[..|a|] == a;
  }

  lemma {:induction false} FlatInside(entries: seq<Entry>, dir: Path, pruned: bool)
    ensures forall i | i in Flat(entries, dir, pruned) :: Inside(dir, i.path) && (pruned ==> i.pruned)
    decreases entries, 1
  {
    if entries != [] {
      var e := entries[0];
      FlatInside(entries[1..], dir, pruned);
      UnderTwice(dir, e.name, dir + [e.name]);
      if !e.encoded && e.node.Dir? {
        FlatInside(e.node.entries, dir + [e.name], pruned || e.node.denied || e.node.nested);
        forall i | i in FlatEntry(e, dir, pruned) ensures Inside(dir, i.path) {
          UnderTwice(dir, e.name, i.path);
        }
      }
      hide Inside;
    }
  }

  // ----- the rules that are loaded

  /** The rules of every directory, or only of those the walk enters. */
  function EntryRules(e: Entry, dir: Path, chain: seq<Rule>, all: bool): seq<Rule>
    decreases e, 0
  {
    var path := dir + [e.name];
    if e.encoded || !e.node.Dir? || (!all && DirBarrier(e.node, chain, path).Some?) then []
    else Own(e.node.patterns, path) + EntriesRules(e.node.entries, path, chain + Own(e.node.patterns, path), all)
  }

  function EntriesRules(entries: seq<Entry>, dir: Path, chain: seq<Rule>, all: bool): seq<Rule>
    decreases entries, 1
  {
    if entries == [] then [] else EntryRules(entries[0], dir, chain, all) + EntriesRules(entries[1..], dir, chain, all)
  }

  function TreeRules(root: Node, all: bool): seq<Rule>
    requires root.Dir?
  {
    Own(root.patterns, []) + EntriesRules(root.entries, [], Own(root.patterns, []), all)
  }

  lemma {:induction false} WalkRules(entries: seq<Entry>, dir: Path, chain: seq<Rule>)
    ensures WalkEntries(entries, dir, chain).rules == EntriesRules(entries, dir, chain, false)
    decreases entries, 1
  {
    hide Ignored, Own;
    if entries != [] {
      WalkRules(entries[1..], dir, chain);
      var e := entries[0];
      if !e.encoded && e.node.Dir? {
        WalkRules(e.node.entries, dir + [e.name], chain + Own(e.node.patterns, dir + [e.name]));
      }
    }
  }

  /** Opened entries of one directory have different names, at every level. */
  ghost predicate Distinct(entries: seq<Entry>)
    decreases entries
  {
    && (forall i, j | 0 <= i < j < |entries| :: !entries[i].encoded && !entries[j].encoded ==> entries[i].name != entries[j].name)
    && (forall i | 0 <= i < |entries| :: entries[i].node.Dir? ==> Distinct(entries[i].node.entries))
  }

  lemma {:induction false} EntryRulesUnder(e: Entry, dir: Path, chain: seq<Rule>, all: bool)
    ensures forall r | r in EntryRules(e, dir, chain, all) :: !e.encoded && e.node.Dir? && Under(dir + [e.name], r.base)
    decreases e, 0
  {
    if !e.encoded && e.node.Dir? {
      var path := dir + [e.name];
      EntriesRulesInside(e.node.entries, path, chain + Own(e.node.patterns, path), all);
    }
    hide Inside, DirBarrier;
  }

  lemma {:induction false} EntriesRulesInside(entries: seq<Entry>, dir: Path, chain: seq<Rule>, all: bool)
    ensures forall r | r in EntriesRules(entries, dir, chain, all) :: Inside(dir, r.base)
    decreases entries, 1
  {
    hide Under, Inside, EntryRules;
    if entries != [] {
      EntryRulesUnder(entries[0], dir, chain, all);
      EntriesRulesInside(entries[1..], dir, chain, all);
      forall r | r in EntryRules(entries[0], dir, chain, all) ensures Inside(dir, r.base) {
        UnderTwice(dir, entries[0].name, r.base);
      }
    }
  }

  lemma {:induction false} NoneAtBase(rules: seq<Rule>, base: Path)
    requires forall r | r in rules :: r.base != base
    ensures AtBase(rules, base) == []
  {
    if rules != [] {
      NoneAtBase(rules[1..], base);
    }
  }

  lemma {:induction false} AllAtBase(rules: seq<Rule>, base: Path)
    requires forall r | r in rules :: r.base == base
    ensures AtBase(rules, base) == rules
  {
    if rules != [] {
      AllAtBase(rules[1..], base);
    }
  }

  lemma UnderOne(dir: Path, a: Text, b: Text, path: Path)
    requires Under(dir + [a], path) && Under(dir + [b], path)
    ensures a == b
  {
    assert path[|dir|] == path[..|dir| + 1][|dir|];
  }

  /** Below one entry only that entry's rules are found. */
  lemma {:induction false} RulesOfEntry(entries: seq<Entry>, k: nat, dir: Path, chain: seq<Rule>, all: bool, path: Path)
    requires k < |entries| && !entries[k].encoded && Under(dir + [entries[k].name], path)
    requires forall i, j | 0 <= i < j < |entries| :: !entries[i].encoded && !entries[j].encoded ==> entries[i].name != entries[j].name
    ensures AtBase(EntriesRules(entries, dir, chain, all), path) == AtBase(EntryRules(entries[k], dir, chain, all), path)
  {
    hide Under, EntryRules;
    var first, rest := EntryRules(entries[0], dir, chain, all), EntriesRules(entries[1..], dir, chain, all);
    AtBaseAppend(first, rest, path);
    if k == 0 {
      RestNotAt(entries, 1, dir, chain, all, path, entries[0].name);
    } else {
      RulesOfEntry(entries[1..], k - 1, dir, chain, all, path);
      EntryNotAt(entries[0], dir, chain, all, path, entries[k].name);
    }
  }

  lemma EntryNotAt(e: Entry, dir: Path, chain: seq<Rule>, all: bool, path: Path, name: Text)
    requires Under(dir + [name], path) && (!e.encoded ==> e.name != name)
    ensures AtBase(EntryRules(e, dir, chain, all), path) == []
  {
    EntryRulesUnder(e, dir, chain, all);
    hide Under, EntryRules;
    forall r | r in EntryRules(e, dir, chain, all) ensures r.base != path {
      if r.base == path {
        UnderOne(dir, e.name, name, path);
      }
    }
    NoneAtBase(EntryRules(e, dir, chain, all), path);
  }

  lemma {:induction false} RestNotAt(entries: seq<Entry>, k: nat, dir: Path, chain: seq<Rule>, all: bool, path: Path, name: Text)
    requires k <= |entries| && Under(dir + [name], path)
    requires forall i | k <= i < |entries| :: !entries[i].encoded ==> entries[i].name != name
    ensures AtBase(EntriesRules(entries[k..], dir, chain, all), path) == []
    decreases |entries| - k
  {
    hide Under, EntryRules;
    if k < |entries| {
      RestNotAt(entries, k + 1, dir, chain, all, path, name);
      EntryNotAt(entries[k], dir, chain, all, path, name);
      assert entries[k..][1..] == entries[k + 1..];
      AtBaseAppend(EntryRules(entries[k], dir, chain, all), EntriesRules(entries[k + 1..], dir, chain, all), path);
    }
  }

  /** The rules hold, for every directory the walk enters, that directory's own rules in order. */
  ghost predicate Holds(rules: seq<Rule>, entries: seq<Entry>, dir: Path, chain: seq<Rule>)
    decreases entries
  {
    forall i | 0 <= i < |entries| ::
      !entries[i].encoded && entries[i].node.Dir? && DirBarrier(entries[i].node, chain, dir + [entries[i].name]).None? ==>
        var path := dir + [entries[i].name];
        var own := Own(entries[i].node.patterns, path);
        AtBase(rules, path) == own && Holds(rules, entries[i].node.entries, path, chain + own)
  }

  lemma {:induction false} LoadedRulesHold(rules: seq<Rule>, entries: seq<Entry>, dir: Path, chain: seq<Rule>, all: bool)
    requires Distinct(entries)
    requires forall path | Inside(dir, path) :: AtBase(rules, path) == AtBase(EntriesRules(entries, dir, chain, all), path)
    ensures Holds(rules, entries, dir, chain)
    decreases entries
  {
    hide Inside, EntriesRules, AtBase, Ignored;
    forall i | 0 <= i < |entries| && !entries[i].encoded && entries[i].node.Dir? && DirBarrier(entries[i].node, chain, dir + [entries[i].name]).None?
      ensures var path := dir + [entries[i].name];
              var own := Own(entries[i].node.patterns, path);
              AtBase(rules, path) == own && Holds(rules, entries[i].node.entries, path, chain + own)
    {
      var path := dir + [entries[i].name];
      var own := Own(entries[i].node.patterns, path);
      forall p | Under(path, p)
        ensures AtBase(rules, p) == if p == path then own else AtBase(EntriesRules(entries[i].node.entries, path, chain + own, all), p)
      {
        UnderTwice(dir, entries[i].name, p);
        RulesOfEntry(entries, i, dir, chain, all, p);
        EntryRulesAt(entries[i], dir, chain, all, p);
      }
      InsideNext(path, path, []);
      LoadedRulesHold(rules, entries[i].node.entries, path, chain + own, all);
    }
  }

  lemma EntryRulesAt(e: Entry, dir: Path, chain: seq<Rule>, all: bool, p: Path)
    requires !e.encoded && e.node.Dir? && DirBarrier(e.node, chain, dir + [e.name]).None? && Under(dir + [e.name], p)
    ensures var path := dir + [e.name];
            var own := Own(e.node.patterns, path);
            AtBase(EntryRules(e, dir, chain, all), p) == if p == path then own else AtBase(EntriesRules(e.node.entries, path, chain + own, all), p)
  {
    var path := dir + [e.name];
    var own := Own(e.node.patterns, path);
    var below := EntriesRules(e.node.entries, path, chain + own, all);
    AtBaseAppend(own, below, p);
    EntriesRulesInside(e.node.entries, path, chain + own, all);
    hide EntriesRules, DirBarrier;
    if p == path {
      AllAtBase(own, p);
      assert !Inside(p, p);
      NoneAtBase(below, p);
    } else {
      NoneAtBase(own, p);
    }
  }

  lemma {:induction false} SameBasesHold(rules: seq<Rule>, others: seq<Rule>, entries: seq<Entry>, dir: Path, chain: seq<Rule>)
    requires Holds(rules, entries, dir, chain) && forall base :: AtBase(rules, base) == AtBase(others, base)
    ensures Holds(others, entries, dir, chain)
    decreases entries
  {
    hide DirBarrier, AtBase, Own;
    forall i | 0 <= i < |entries| && !entries[i].encoded && entries[i].node.Dir? && DirBarrier(entries[i].node, chain, dir + [entries[i].name]).None?
      ensures var path := dir + [entries[i].name];
              var own := Own(entries[i].node.patterns, path);
              Holds(others, entries[i].node.entries, path, chain + own)
    {
      SameBasesHold(rules, others, entries[i].node.entries, dir + [entries[i].name],
                    chain + Own(entries[i].node.patterns, dir + [entries[i].name]));
    }
  }

  // ----- the walk is the filter

  /** The walk's chain of rules is what matters inside the directory, which is not ignored itself. */
  ghost predicate Entered(rules: seq<Rule>, dir: Path, chain: seq<Rule>) {
    && ByDepth(rules) && (dir != [] ==> !Ignored(rules, dir, true))
    && chain == Relevant(rules, dir) + AtBase(rules, dir)
  }

  lemma EnteredIgnores(rules: seq<Rule>, dir: Path, chain: seq<Rule>, name: Text, isDir: bool)
    requires Entered(rules, dir, chain)
    ensures Ignored(chain, dir + [name], isDir) == Ignored(rules, dir + [name], isDir)
    ensures !AboveIgnored(rules, dir + [name])
    ensures Relevant(rules, dir + [name]) == chain
  {
    var path := dir + [name];
    RelevantInside(rules, dir, name);
    SameRelevantSameIgnored(rules, chain, path, isDir);
    forall k | 0 < k < |path|
      ensures !Excluded(rules, path[..k], true)
    {
      assert path[..k] == dir[..k];
      assert k == |dir| ==> dir[..k] == dir;
    }
  }

  lemma {:induction false} EntriesFiltered(rules: seq<Rule>, entries: seq<Entry>, dir: Path, chain: seq<Rule>)
    requires Entered(rules, dir, chain) && Holds(rules, entries, dir, chain)
    ensures WalkEntries(entries, dir, chain).candidates == Filter(Flat(entries, dir, false), rules)
    decreases entries, 1
  {
    hide Entered, Ignored, Kept, WalkEntry, FlatEntry;
    if entries != [] {
      EntryFiltered(rules, entries, dir, chain);
      EntriesFiltered(rules, entries[1..], dir, chain);
      FilterAppend(FlatEntry(entries[0], dir, false), Flat(entries[1..], dir, false), rules);
    }
  }

  lemma {:induction false} EntryFiltered(rules: seq<Rule>, entries: seq<Entry>, dir: Path, chain: seq<Rule>)
    requires entries != [] && Entered(rules, dir, chain) && Holds(rules, entries, dir, chain)
    ensures WalkEntry(entries[0], dir, chain).candidates == Filter(FlatEntry(entries[0], dir, false), rules)
    decreases entries, 0
  {
    hide Ignored, AboveIgnored, Excluded, Inside, Relevant, AtBase;
    var e := entries[0];
    var path := dir + [e.name];
    EnteredIgnores(rules, dir, chain, e.name, false);
    EnteredIgnores(rules, dir, chain, e.name, true);
    if !e.encoded && e.node.Dir? {
      var below := Flat(e.node.entries, path, e.node.denied || e.node.nested);
      FlatInside(e.node.entries, path, e.node.denied || e.node.nested);
      if DirBarrier(e.node, chain, path).None? {
        EntriesFiltered(rules, e.node.entries, path, chain + Own(e.node.patterns, path));
      } else {
        forall i | i in below ensures !Kept(i, rules) {
          if !i.pruned {
            NeverReincluded(rules, path, i.path, false);
          }
        }
        FilterNothing(below, rules);
      }
    } else {
      assert forall i | i in FlatEntry(e, dir, false) :: FlatEntry(e, dir, false) == [i];
    }
  }

  /** The walk captures exactly what the flat filter keeps, with the rules of the whole tree or only those it loaded. */
  lemma WalkIsFilter(root: Node, all: bool)
    requires root.Dir? && Distinct(root.entries)
    ensures WalkTree(root).candidates == Filter(Flat(root.entries, [], false), OrderRules(TreeRules(root, all)))
    ensures WalkTree(root).rules == TreeRules(root, false)
  {
    hide *;
    RootWalk(root);
    RootRules(root, all);
    OrderedBases(TreeRules(root, all));
    SameBasesHold(TreeRules(root, all), OrderRules(TreeRules(root, all)), root.entries, [], Own(root.patterns, []));
    RootEntered(OrderRules(TreeRules(root, all)), Own(root.patterns, []));
    EntriesFiltered(OrderRules(TreeRules(root, all)), root.entries, [], Own(root.patterns, []));
  }

  lemma RootWalk(root: Node)
    requires root.Dir?
    ensures WalkTree(root).candidates == WalkEntries(root.entries, [], Own(root.patterns, [])).candidates
    ensures WalkTree(root).rules == TreeRules(root, false)
  {
    hide WalkEntries, EntriesRules, Own;
    WalkRules(root.entries, [], Own(root.patterns, []));
  }

  lemma OrderedBases(rules: seq<Rule>)
    ensures forall base :: AtBase(rules, base) == AtBase(OrderRules(rules), base)
    ensures ByDepth(OrderRules(rules))
  {
    hide *;
    OrderIsStable(rules, []);
    forall base
      ensures AtBase(rules, base) == AtBase(OrderRules(rules), base)
    {
      OrderIsStable(rules, base);
    }
  }

  lemma RootEntered(rules: seq<Rule>, own: seq<Rule>)
    requires ByDepth(rules) && AtBase(rules, []) == own
    ensures Entered(rules, [], own)
  {
    RootRelevant(rules);
    hide ByDepth, AtBase, Relevant, Ignored;
  }

  lemma RootRules(root: Node, all: bool)
    requires root.Dir? && Distinct(root.entries)
    ensures AtBase(TreeRules(root, all), []) == Own(root.patterns, [])
    ensures Holds(TreeRules(root, all), root.entries, [], Own(root.patterns, []))
  {
    var own := Own(root.patterns, []);
    var rules := TreeRules(root, all);
    var below := EntriesRules(root.entries, [], own, all);
    EntriesRulesInside(root.entries, [], own, all);
    hide EntriesRules, Distinct, Holds, Own;
    forall base
      ensures AtBase(rules, base) == if base == [] then own else AtBase(below, base)
    {
      AtBaseAppend(own, below, base);
      if base == [] {
        AllAtBase(own, base);
        NoneAtBase(below, base);
      } else {
        NoneAtBase(own, base);
      }
      hide AtBase;
    }
    LoadedRulesHold(rules, root.entries, [], own, all);
  }

  lemma {:induction false} RootRelevant(rules: seq<Rule>)
    ensures Relevant(rules, []) == []
  {
    if rules != [] {
      RootRelevant(rules[1..]);
    }
  }
}
