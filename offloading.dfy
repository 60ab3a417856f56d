/**
 * Offloading modes of a network interface: a tree of named modes, each with
 * a state that is on, off or left unset.  A bond offers the modes that all of
 * its slave interfaces offer.
 */
module Offloading {
  import opened Wrappers

  /** A mode, its state (`None` when unset) and its sub-modes. */
  datatype Mode = Mode(name: string, state: Option<bool>, sub: seq<Mode>)

  /** Every mode name of a forest, at every depth. */
  function Names(ms: seq<Mode>): set<string>
    decreases ms
  {
    if ms == [] then {}
    else
      assert ms[0] in ms;
      {ms[0].name} + Names(ms[0].sub) + Names(ms[1..])
  }

  /**
   * The forest as a name-to-state map: a mode's entry, then its sub-modes'
   * entries, then those of the following modes, a later entry replacing an
   * earlier one of the same name.  It has exactly one key per mode name
   * found at any depth.
   */
  function FlatDict(ms: seq<Mode>): (r: map<string, Option<bool>>)
    ensures r.Keys == Names(ms)
    decreases ms
  {
    if ms == [] then map[]
    else
      assert ms[0] in ms;
      map[ms[0].name := ms[0].state] + FlatDict(ms[0].sub) + FlatDict(ms[1..])
  }

  /** The (name, state) entries of a forest in the order the flattening visits them. */
  function Preorder(ms: seq<Mode>): seq<(string, Option<bool>)>
    decreases ms
  {
    if ms == [] then []
    else
      assert ms[0] in ms;
      [(ms[0].name, ms[0].state)] + Preorder(ms[0].sub) + Preorder(ms[1..])
  }

  /** Entries stored one after the other into an empty map, as a dictionary assignment does. */
  function StoreAll(es: seq<(string, Option<bool>)>): map<string, Option<bool>> {
    if es == [] then map[] else StoreAll(es[..|es| - 1])[es[|es| - 1].0 := es[|es| - 1].1]
  }

  lemma {:induction false} StoreAllConcat(a: seq<(string, Option<bool>)>, b: seq<(string, Option<bool>)>)
    ensures StoreAll(a + b) == StoreAll(a) + StoreAll(b)
    decreases |b|
  {
    if b != [] {
      assert (a + b)[..|a + b| - 1] == a + b[..|b| - 1];
      StoreAllConcat(a, b[..|b| - 1]);
    } else {
      assert a + b == a;
    }
  }

  /** Flattening stores the visited entries one by one, a later name overriding an earlier one. */
  lemma {:induction false} FlatDictStoresPreorder(ms: seq<Mode>)
    ensures FlatDict(ms) == StoreAll(Preorder(ms))
    decreases ms
  {
    if ms != [] {
      assert ms[0] in ms;
      FlatDictStoresPreorder(ms[0].sub);
      FlatDictStoresPreorder(ms[1..]);
      var head := [(ms[0].name, ms[0].state)];
      StoreAllConcat(head + Preorder(ms[0].sub), Preorder(ms[1..]));
      StoreAllConcat(head, Preorder(ms[0].sub));
      assert StoreAll(head) == map[ms[0].name := ms[0].state] by {
        assert head[..0] == [];
      }
    }
  }

  lemma {:induction false} StoreAllDistinct(es: seq<(string, Option<bool>)>, i: int)
    requires 0 <= i < |es|
    requires forall j, k :: 0 <= j < k < |es| ==> es[j].0 != es[k].0
    ensures es[i].0 in StoreAll(es) && StoreAll(es)[es[i].0] == es[i].1
  {
    if i < |es| - 1 {
      StoreAllDistinct(es[..|es| - 1], i);
    }
  }

  /** When no name repeats, every mode's name maps to that mode's own state. */
  lemma FlatDictValue(ms: seq<Mode>, i: int)
    requires 0 <= i < |Preorder(ms)|
    requires forall j, k :: 0 <= j < k < |Preorder(ms)| ==> Preorder(ms)[j].0 != Preorder(ms)[k].0
    ensures Preorder(ms)[i].0 in FlatDict(ms) && FlatDict(ms)[Preorder(ms)[i].0] == Preorder(ms)[i].1
  {
    FlatDictStoresPreorder(ms);
    StoreAllDistinct(Preorder(ms), i);
  }

  /**
   * The names the flat maps of all slaves share: the first slave's keys,
   * narrowed by each further slave's keys in turn.
   */
  function CommonNames(slaves: seq<seq<Mode>>): (r: set<string>)
    requires |slaves| > 0
    ensures forall x :: x in r <==> forall k :: 0 <= k < |slaves| ==> x in Names(slaves[k])
  {
    var last := slaves[|slaves| - 1];
    if |slaves| == 1 then FlatDict(last).Keys
    else
      var init := slaves[..|slaves| - 1];
      assert forall k :: 0 <= k < |init| ==> init[k] == slaves[k];
      var r := CommonNames(init) * FlatDict(last).Keys;
      CommonNamesStep(slaves, CommonNames(init), r);
      r
  }

  /** Intersecting the names every earlier slave offers with the last slave's gives the names all of them offer. */
  lemma CommonNamesStep(slaves: seq<seq<Mode>>, prev: set<string>, r: set<string>)
    requires |slaves| > 1
    requires forall x :: x in prev <==> forall k :: 0 <= k < |slaves| - 1 ==> x in Names(slaves[k])
    requires r == prev * Names(slaves[|slaves| - 1])
    ensures forall x :: x in r <==> forall k :: 0 <= k < |slaves| ==> x in Names(slaves[k])
  {
  }

  /**
   * The modes of `ms` whose names are in `keep`, in their order, each with
   * its sub-modes pruned the same way; a dropped mode takes its sub-modes with it.
   */
  function Prune(ms: seq<Mode>, keep: set<string>): (r: seq<Mode>)
    ensures |r| <= |ms|
    ensures Names(r) <= Names(ms) * keep
    decreases ms
  {
    if ms == [] then []
    else
      assert ms[0] in ms;
      var rest := Prune(ms[1..], keep);
      if ms[0].name in keep then
        var m := ms[0].(sub := Prune(ms[0].sub, keep));
        assert ([m] + rest)[1..] == rest;
        [m] + rest
      else rest
  }

  /**
   * The modes a bond offers: the first slave's tree cut down to the names
   * every slave offers; nothing without slaves.  Every mode it offers, at
   * any depth, is offered by each slave.
   */
  function AvailableModes(slaves: seq<seq<Mode>>): (r: seq<Mode>)
    ensures slaves == [] ==> r == []
    ensures slaves != [] ==> |r| <= |slaves[0]|
    ensures forall k, x :: 0 <= k < |slaves| && x in Names(r) ==> x in Names(slaves[k])
  {
    if slaves == [] then [] else Prune(slaves[0], CommonNames(slaves))
  }

  /** A mode whose whole subtree is kept comes through unchanged. */
  lemma {:induction false} PruneKeepsAll(ms: seq<Mode>, keep: set<string>)
    requires Names(ms) <= keep
    ensures Prune(ms, keep) == ms
    decreases ms
  {
    if ms != [] {
      assert ms[0] in ms;
      PruneKeepsAll(ms[0].sub, keep);
      PruneKeepsAll(ms[1..], keep);
      assert [ms[0]] + ms[1..] == ms;
    }
  }

  /** A top-level mode whose name is kept appears in the result, with its sub-modes pruned. */
  lemma {:induction false} PruneKeepsMode(ms: seq<Mode>, keep: set<string>, i: int)
    requires 0 <= i < |ms| && ms[i].name in keep
    ensures ms[i].(sub := Prune(ms[i].sub, keep)) in Prune(ms, keep)
    decreases ms
  {
    if i > 0 {
      PruneKeepsMode(ms[1..], keep, i - 1);
    }
  }

  /** No top-level name kept: nothing is left. */
  lemma {:induction false} PruneDropsAll(ms: seq<Mode>, keep: set<string>)
    requires forall i :: 0 <= i < |ms| ==> ms[i].name !in keep
    ensures Prune(ms, keep) == []
    decreases ms
  {
    if ms != [] {
      PruneDropsAll(ms[1..], keep);
    }
  }

  /** Two slaves with no mode name in common give a bond no modes. */
  lemma DisjointSlavesNoModes(slaves: seq<seq<Mode>>)
    requires |slaves| >= 2 && Names(slaves[0]) !! Names(slaves[1])
    ensures AvailableModes(slaves) == []
  {
    assert CommonNames(slaves) == {};
    PruneDropsAll(slaves[0], {});
  }

  /**
   * A top-level mode of the first slave whose names, sub-modes included, every
   * slave offers is offered by the bond exactly as the first slave describes it.
   */
  lemma CommonModeKept(slaves: seq<seq<Mode>>, i: int)
    requires |slaves| > 0 && 0 <= i < |slaves[0]|
    requires forall k :: 0 <= k < |slaves| ==> Names([slaves[0][i]]) <= Names(slaves[k])
    ensures slaves[0][i] in AvailableModes(slaves)
  {
    var m := slaves[0][i];
    var keep := CommonNames(slaves);
    assert Names([m]) == {m.name} + Names(m.sub) by {
      assert [m][1..] == [];
    }
    PruneKeepsAll(m.sub, keep);
    PruneKeepsMode(slaves[0], keep, i);
    assert m.(sub := Prune(m.sub, keep)) == m;
  }

  /** Slaves that all describe the same tree give the bond that tree. */
  lemma IdenticalSlavesKeepTree(slaves: seq<seq<Mode>>)
    requires |slaves| > 0 && forall k :: 0 <= k < |slaves| ==> slaves[k] == slaves[0]
    ensures AvailableModes(slaves) == slaves[0]
  {
    PruneKeepsAll(slaves[0], CommonNames(slaves));
  }

  /** A leaf mode. */
  function Leaf(name: string, state: Option<bool>): Mode {
    Mode(name, state, [])
  }

  /** Two top-level modes with one sub-mode each flatten to four entries. */
  lemma TwoLevelFlatDict()
    ensures FlatDict([Mode("mode_1", Some(true), [Leaf("sub_mode_1", None)]),
                      Mode("mode_2", None, [Leaf("sub_mode_2", Some(false))])])
            == map["mode_1" := Some(true), "sub_mode_1" := None,
                   "mode_2" := None, "sub_mode_2" := Some(false)]
  {
    var m1 := Mode("mode_1", Some(true), [Leaf("sub_mode_1", None)]);
    var m2 := Mode("mode_2", None, [Leaf("sub_mode_2", Some(false))]);
    assert [m1, m2][1..] == [m2];
    assert FlatDict([m2]) == map["mode_2" := None, "sub_mode_2" := Some(false)];
  }

  /** A chain four levels deep flattens to one entry per level. */
  lemma DeepFlatDict()
    ensures FlatDict([Mode("level_1", Some(true), [Mode("level_2", None, [Mode("level_3", None, [Leaf("level_4", Some(false))])])])])
            == map["level_1" := Some(true), "level_2" := None,
                   "level_3" := None, "level_4" := Some(false)]
  {
    var l4 := Leaf("level_4", Some(false));
    var l3 := Mode("level_3", None, [l4]);
    var l2 := Mode("level_2", None, [l3]);
    var l1 := Mode("level_1", Some(true), [l2]);
    FlatDictOne(l4);
    FlatDictOne(l3);
    FlatDictOne(l2);
    FlatDictOne(l1);
  }

  /** A forest of one mode flattens to its own entry followed by its sub-modes' entries. */
  lemma FlatDictOne(m: Mode)
    ensures FlatDict([m]) == map[m.name := m.state] + FlatDict(m.sub)
  {
    assert [m][1..] == [];
  }

  /** Names of a forest of one leaf. */
  lemma LeafNames(name: string, state: Option<bool>)
    ensures Names([Leaf(name, state)]) == {name}
  {
    assert [Leaf(name, state)][1..] == [];
  }

  /** Names of two forests side by side. */
  lemma {:induction false} NamesConcat(a: seq<Mode>, b: seq<Mode>)
    ensures Names(a + b) == Names(a) + Names(b)
    decreases a
  {
    if a != [] {
      assert (a + b)[0] == a[0] && (a + b)[1..] == a[1..] + b;
      NamesConcat(a[1..], b);
    } else {
      assert a + b == b;
    }
  }

  /** The names two slaves share. */
  lemma CommonNamesOfTwo(a: seq<Mode>, b: seq<Mode>)
    ensures CommonNames([a, b]) == Names(a) * Names(b)
  {
    var r := CommonNames([a, b]);
    forall x
      ensures x in r <==> x in Names(a) * Names(b)
    {
      assert [a, b][0] == a && [a, b][1] == b;
    }
  }

  /** The first slave's own mode, with one sub-mode. */
  function Nic1Modes(): seq<Mode> {
    [Mode("mode_for_nic1", None, [Leaf("sub_mode_for_nic1", Some(false))])]
  }

  /** The second slave's own mode. */
  function Nic2Modes(): seq<Mode> {
    [Leaf("mode_for_nic2", Some(true))]
  }

  function CommonLeaf(): Mode {
    Leaf("common_mode", Some(true))
  }

  /** A mode with one common sub-mode followed by `extra`. */
  function CommonTree(extra: seq<Mode>): Mode {
    Mode("common_mode_2", Some(true), [Leaf("common_sub", Some(false))] + extra)
  }

  lemma Nic1Names()
    ensures Names(Nic1Modes()) == {"mode_for_nic1", "sub_mode_for_nic1"}
  {
    LeafNames("sub_mode_for_nic1", Some(false));
    assert Nic1Modes()[1..] == [];
  }

  /** Slaves whose modes differ give the bond no modes. */
  lemma DifferentModesIntersection()
    ensures AvailableModes([Nic1Modes(), Nic2Modes()]) == []
  {
    Nic1Names();
    LeafNames("mode_for_nic2", Some(true));
    DisjointSlavesNoModes([Nic1Modes(), Nic2Modes()]);
  }

  /** Adding the same leaf to both slaves gives the bond exactly that leaf. */
  lemma CommonLeafIntersection()
    ensures AvailableModes([Nic1Modes() + [CommonLeaf()], Nic2Modes() + [CommonLeaf()]]) == [CommonLeaf()]
  {
    var a, b := Nic1Modes() + [CommonLeaf()], Nic2Modes() + [CommonLeaf()];
    Nic1Names();
    LeafNames("mode_for_nic2", Some(true));
    LeafNames("common_mode", Some(true));
    NamesConcat(Nic1Modes(), [CommonLeaf()]);
    NamesConcat(Nic2Modes(), [CommonLeaf()]);
    CommonNamesOfTwo(a, b);
    var keep := CommonNames([a, b]);
    assert keep == {"common_mode"};
    assert a[1..] == [CommonLeaf()];
    assert Prune(a, keep) == [CommonLeaf()];
  }

  /** The names of a common tree carrying one extra leaf. */
  lemma CommonTreeNames(extra: string)
    ensures Names([CommonTree([Leaf(extra, None)])]) == {"common_mode_2", "common_sub", extra}
  {
    var t := CommonTree([Leaf(extra, None)]);
    LeafNames("common_sub", Some(false));
    LeafNames(extra, None);
    NamesConcat([Leaf("common_sub", Some(false))], [Leaf(extra, None)]);
    assert [t][1..] == [];
  }

  /** The names of a slave's own modes followed by the common leaf and a common tree with one extra sub-mode. */
  lemma WithCommonModesNames(own: seq<Mode>, extra: string)
    ensures Names(own + [CommonLeaf(), CommonTree([Leaf(extra, None)])])
            == Names(own) + {"common_mode", "common_mode_2", "common_sub", extra}
  {
    var t := CommonTree([Leaf(extra, None)]);
    LeafNames("common_mode", Some(true));
    CommonTreeNames(extra);
    NamesConcat([CommonLeaf()], [t]);
    assert [CommonLeaf()] + [t] == [CommonLeaf(), t];
    NamesConcat(own, [CommonLeaf(), t]);
  }

  /** The names both slaves offer when each adds the common leaf and a common tree with a sub-mode of its own. */
  lemma DifferentSubModesCommonNames()
    ensures CommonNames([Nic1Modes() + [CommonLeaf(), CommonTree([Leaf("uncommon_sub_0", None)])],
                         Nic2Modes() + [CommonLeaf(), CommonTree([Leaf("uncommon_sub_1", None)])]])
            == {"common_mode", "common_mode_2", "common_sub"}
  {
    Nic1Names();
    LeafNames("mode_for_nic2", Some(true));
    WithCommonModesNames(Nic1Modes(), "uncommon_sub_0");
    WithCommonModesNames(Nic2Modes(), "uncommon_sub_1");
    CommonNamesOfTwo(Nic1Modes() + [CommonLeaf(), CommonTree([Leaf("uncommon_sub_0", None)])],
                     Nic2Modes() + [CommonLeaf(), CommonTree([Leaf("uncommon_sub_1", None)])]);
  }

  /** Pruning a common tree drops the sub-mode whose name is not kept. */
  lemma PruneCommonTree(extra: string, keep: set<string>)
    requires "common_mode_2" in keep && "common_sub" in keep && extra !in keep
    ensures Prune([CommonTree([Leaf(extra, None)])], keep) == [CommonTree([])]
  {
    var t := CommonTree([Leaf(extra, None)]);
    assert t.sub[1..] == [Leaf(extra, None)];
    assert Prune(t.sub, keep) == CommonTree([]).sub;
  }

  /** Pruning the common leaf and a common tree keeps both, without the tree's extra sub-mode. */
  lemma PruneCommonModes(extra: string, keep: set<string>)
    requires "common_mode" in keep && "common_mode_2" in keep && "common_sub" in keep && extra !in keep
    ensures Prune([CommonLeaf(), CommonTree([Leaf(extra, None)])], keep) == [CommonLeaf(), CommonTree([])]
  {
    var t := CommonTree([Leaf(extra, None)]);
    PruneCommonTree(extra, keep);
    assert [CommonLeaf(), t][1..] == [t];
    assert CommonLeaf().sub == [];
  }

  /** Sub-modes that only one slave offers are dropped from a mode both offer. */
  lemma DifferentSubModesIntersection()
    ensures AvailableModes([Nic1Modes() + [CommonLeaf(), CommonTree([Leaf("uncommon_sub_0", None)])],
                            Nic2Modes() + [CommonLeaf(), CommonTree([Leaf("uncommon_sub_1", None)])]])
            == [CommonLeaf(), CommonTree([])]
  {
    var t0 := CommonTree([Leaf("uncommon_sub_0", None)]);
    var a := Nic1Modes() + [CommonLeaf(), t0];
    var b := Nic2Modes() + [CommonLeaf(), CommonTree([Leaf("uncommon_sub_1", None)])];
    DifferentSubModesCommonNames();
    var keep := {"common_mode", "common_mode_2", "common_sub"};
    assert AvailableModes([a, b]) == Prune(a, keep);
    PruneCommonModes("uncommon_sub_0", keep);
    assert a[1..] == [CommonLeaf(), t0];
    assert a[0].name !in keep;
  }
}
