// What the walk reports as excluded: the same as judging every directory and link of the tree by itself.
module WalkExclusions {
  import opened Wrappers
  import opened PathBytes
  import opened Glob
  import opened IgnoreRules
  import opened Walk

  /** A directory's own rules are the patterns of its ignore files, in their order. */
  lemma {:induction false} OwnAt(patterns: seq<Pattern>, dir: Path, i: nat)
    requires i < |patterns|
    ensures Own(patterns, dir)[i] == Rule(dir, patterns[i])
  {
    if 0 < i {
      OwnAt(patterns[1..], dir, i - 1);
    }
  }

  datatype What = DeniedDirectory | RepositoryDirectory | Directory | BrokenLink

  /** Something that may be reported, and whether a denied directory or a nested repository is above it. */
  datatype Obstacle = Obstacle(path: Path, what: What, pruned: bool)

  function EntryObstacles(e: Entry, dir: Path, pruned: bool): seq<Obstacle>
    decreases e, 0
  {
    var path := dir + [e.name];
    if e.encoded then []
    else match e.node
         case Dir(_, entries, denied, nested) =>
           [Obstacle(path, if denied then DeniedDirectory else if nested then RepositoryDirectory else Directory, pruned)]
           + Obstacles(entries, path, pruned || denied || nested)
         case Link(readable) => if readable then [] else [Obstacle(path, BrokenLink, pruned)]
         case _ => []
  }

  /** Everything below a directory that may be reported, in order. */
  function Obstacles(entries: seq<Entry>, dir: Path, pruned: bool): seq<Obstacle>
    decreases entries, 1
  {
    if entries == [] then [] else EntryObstacles(entries[0], dir, pruned) + Obstacles(entries[1..], dir, pruned)
  }

  /** Nothing is reported inside what is not entered; a link is reported unless it is ignored. */
  predicate Reported(o: Obstacle, rules: seq<Rule>) {
    && !o.pruned && !AboveIgnored(rules, o.path)
    && match o.what
       case Directory => Ignored(rules, o.path, true)
       case BrokenLink => !Ignored(rules, o.path, false)
       case _ => true
  }

  function ReasonOf(what: What): Reason {
    match what
    case DeniedDirectory => Denied
    case RepositoryDirectory => NestedRepository
    case Directory => PolicyExcluded
    case BrokenLink => Unverifiable
  }

  function Reports(os: seq<Obstacle>, rules: seq<Rule>): seq<Exclusion> {
    if os == [] then []
    else (if Reported(os[0], rules) then [Exclusion(os[0].path, ReasonOf(os[0].what))] else []) + Reports(os[1..], rules)
  }

  lemma {:induction false} ReportsBoth(a: seq<Obstacle>, b: seq<Obstacle>, rules: seq<Rule>)
    ensures Reports(a + b, rules) == Reports(a, rules) + Reports(b, rules)
  {
    hide Reported;
    if a == [] {
      assert a + b == b;
    } else {
      ReportsBoth(a[1..], b, rules);
      assert (a + b)[1..] == a[1..] + b && (a + b)[0] == a[0];
      var first := if Reported(a[0], rules) then [Exclusion(a[0].path, ReasonOf(a[0].what))] else [];
      assert first + Reports(a[1..], rules) + Reports(b, rules) == first + (Reports(a[1..], rules) + Reports(b, rules));
    }
  }

  lemma {:induction false} NoReports(os: seq<Obstacle>, rules: seq<Rule>)
    requires forall o | o in os :: !Reported(o, rules)
    ensures Reports(os, rules) == []
  {
    hide Reported;
    if os != [] {
      NoReports(os[1..], rules);
    }
  }

  lemma {:induction false} ObstaclesInside(entries: seq<Entry>, dir: Path, pruned: bool)
    ensures forall o | o in Obstacles(entries, dir, pruned) :: Inside(dir, o.path) && (pruned ==> o.pruned)
    decreases entries, 1
  {
    if entries != [] {
      var e := entries[0];
      ObstaclesInside(entries[1..], dir, pruned);
      UnderTwice(dir, e.name, dir + [e.name]);
      if !e.encoded && e.node.Dir? {
        ObstaclesInside(e.node.entries, dir + [e.name], pruned || e.node.denied || e.node.nested);
        forall o | o in EntryObstacles(e, dir, pruned)
          ensures Inside(dir, o.path)
        {
          UnderTwice(dir, e.name, o.path);
        }
      }
      hide Inside;
    }
  }

  lemma {:induction false} EntriesReported(rules: seq<Rule>, entries: seq<Entry>, dir: Path, chain: seq<Rule>)
    requires Entered(rules, dir, chain) && Holds(rules, entries, dir, chain)
    ensures WalkEntries(entries, dir, chain).excluded == Reports(Obstacles(entries, dir, false), rules)
    decreases entries, 1
  {
    hide Entered, Ignored, Reported, WalkEntry, EntryObstacles;
    if entries != [] {
      EntryReported(rules, entries, dir, chain);
      EntriesReported(rules, entries[1..], dir, chain);
      ReportsBoth(EntryObstacles(entries[0], dir, false), Obstacles(entries[1..], dir, false), rules);
    }
  }

  /** Inside a directory that is not entered, nothing is reported. */
  lemma NothingBelow(rules: seq<Rule>, node: Node, path: Path)
    requires node.Dir? && path != [] && (node.denied || node.nested || Ignored(rules, path, true))
    ensures Reports(Obstacles(node.entries, path, node.denied || node.nested), rules) == []
  {
    hide Ignored, AboveIgnored, Inside;
    var below := Obstacles(node.entries, path, node.denied || node.nested);
    ObstaclesInside(node.entries, path, node.denied || node.nested);
    forall o | o in below
      ensures !Reported(o, rules)
    {
      if !o.pruned {
        NeverReincluded(rules, path, o.path, false);
      }
    }
    NoReports(below, rules);
  }

  lemma {:induction false} EntryReported(rules: seq<Rule>, entries: seq<Entry>, dir: Path, chain: seq<Rule>)
    requires entries != [] && Entered(rules, dir, chain) && Holds(rules, entries, dir, chain)
    ensures WalkEntry(entries[0], dir, chain).excluded == Reports(EntryObstacles(entries[0], dir, false), rules)
    decreases entries, 0
  {
    hide Ignored, AboveIgnored, Excluded, Inside, Relevant, AtBase;
    var e := entries[0];
    var path := dir + [e.name];
    EnteredIgnores(rules, dir, chain, e.name, false);
    EnteredIgnores(rules, dir, chain, e.name, true);
    if !e.encoded && e.node.Dir? {
      var below := Obstacles(e.node.entries, path, e.node.denied || e.node.nested);
      var here := Obstacle(path, if e.node.denied then DeniedDirectory else if e.node.nested then RepositoryDirectory else Directory, false);
      ReportsBoth([here], below, rules);
      if DirBarrier(e.node, chain, path).None? {
        EntriesReported(rules, e.node.entries, path, chain + Own(e.node.patterns, path));
      } else {
        NothingBelow(rules, e.node, path);
      }
    }
  }

  /**
   * The walk reports exactly the directories it does not enter and the links it cannot read, each with its reason, as judging
   * every directory and link by itself would: with the rules of the whole tree or only those it loaded.
   */
  lemma ExclusionsAreFilter(root: Node, all: bool)
    requires root.Dir? && Walk.Distinct(root.entries)
    ensures WalkTree(root).excluded == Reports(Obstacles(root.entries, [], false), OrderRules(TreeRules(root, all)))
  {
    hide *;
    RootExcluded(root);
    RootRules(root, all);
    OrderedBases(TreeRules(root, all));
    SameBasesHold(TreeRules(root, all), OrderRules(TreeRules(root, all)), root.entries, [], Own(root.patterns, []));
    RootEntered(OrderRules(TreeRules(root, all)), Own(root.patterns, []));
    EntriesReported(OrderRules(TreeRules(root, all)), root.entries, [], Own(root.patterns, []));
  }

  lemma RootExcluded(root: Node)
    requires root.Dir?
    ensures WalkTree(root).excluded == WalkEntries(root.entries, [], Own(root.patterns, [])).excluded
  {
    hide WalkEntries, Own;
  }
}
