/**
 * CodeChatUtils.py's MruFiles: the most-recently-used list of the File menu.
 * The list lives in the application settings (here a plain field), newest
 * first, at most max_files long; a fixed row of max_files menu actions
 * shows it. The Qt actions become values holding their text, data and
 * visibility; opening a file and the file system are outside the model
 * (`open_mru` is given the set of files that exist and returns the file it
 * would open).
 */
module MruFiles {
  import opened PyText

  /** self.max_files. */
  const MaxFiles: nat := 10

  /** One File-menu QAction: its text, its data (a file name) and whether it is visible. */
  datatype Action = Action(text: string, data: string, visible: bool)

  /** A hidden action, as the constructor creates it. */
  const Hidden := Action("", "", false)

  /** How many times f occurs in l. */
  function Count(l: seq<string>, f: string): nat
  {
    multiset(l)[f]
  }

  /** list.remove(f): the first occurrence of f goes, everything else keeps its order. */
  function Remove<T(==)>(l: seq<T>, f: T): (r: seq<T>)
    requires f in l
    ensures |r| == |l| - 1
  {
    if l[0] == f then l[1..] else [l[0]] + Remove(l[1..], f)
  }

  /** Remove takes away one f and nothing else. */
  lemma {:induction false} RemoveCount<T>(l: seq<T>, f: T)
    requires f in l
    ensures multiset(Remove(l, f)) == multiset(l) - multiset{f}
  {
    assert l == [l[0]] + l[1..];
    if l[0] != f {
      RemoveCount(l[1..], f);
    }
  }

  /** Remove deletes exactly the entry at the first index k of f. */
  lemma {:induction false} RemoveAt<T>(l: seq<T>, f: T, k: nat)
    requires k < |l| && l[k] == f
    requires forall j :: 0 <= j < k ==> l[j] != f
    ensures Remove(l, f) == l[..k] + l[k + 1..]
  {
    if k > 0 {
      assert l[0] != f;
      var t := l[1..];
      assert t[k - 1] == f;
      RemoveAt(t, f, k - 1);
      assert Remove(l, f) == [l[0]] + (t[..k - 1] + t[k..]);
      assert [l[0]] + t[..k - 1] == l[..k];
      assert t[k..] == l[k + 1..];
    }
  }

  /** The list add_file stores: f on top, any earlier entry of f removed, then the list trimmed once. */
  function Added(l: seq<string>, f: string, max: nat): seq<string>
  {
    var rest := if f in l then Remove(l, f) else l;
    var l' := [f] + rest;
    if |l'| > max then l'[..|l'| - 1] else l'
  }

  /** What add_file keeps of the old list besides f: the old list without f's entry. */
  function Others(l: seq<string>, f: string): seq<string>
  {
    if f in l then Remove(l, f) else l
  }

  /**
   * After add_file(f), f is at index 0 and the other entries keep their
   * relative order: after f comes a prefix of the old list with f's entry
   * removed, cut only by the trim.
   */
  lemma AddedOrder(l: seq<string>, f: string, max: nat)
    requires max >= 1
    ensures |Added(l, f, max)| > 0 && Added(l, f, max)[0] == f
    ensures Added(l, f, max)[1..] <= Others(l, f)
    ensures |Added(l, f, max)| == if |Others(l, f)| + 1 > max then |Others(l, f)| else |Others(l, f)| + 1
  {
    var l' := [f] + Others(l, f);
    assert l'[1..] == Others(l, f);
  }

  /** Nothing of f is left besides the top entry when f was there at most once. */
  lemma OthersFree(l: seq<string>, f: string)
    requires Count(l, f) <= 1
    ensures f !in Others(l, f)
  {
    if f in l {
      RemoveCount(l, f);
    }
    assert Count(Others(l, f), f) == 0;
  }

  /** f ends up in the list exactly once when it was there at most once before (as add_file keeps it). */
  lemma AddedOnce(l: seq<string>, f: string, max: nat)
    requires max >= 1 && Count(l, f) <= 1
    ensures Count(Added(l, f, max), f) == 1
  {
    var rest := Others(l, f);
    OthersFree(l, f);
    var l' := [f] + rest;
    if |l'| > max {
      var p := rest[..|rest| - 1];
      assert rest == p + [rest[|rest| - 1]];
      assert f !in p;
      assert l'[..|l'| - 1] == [f] + p;
    }
  }

  /**
   * A list of at most max entries stays within max; when a full list gets a
   * new file, the oldest entry is the one dropped.
   */
  lemma AddedBounded(l: seq<string>, f: string, max: nat)
    requires max >= 1 && |l| <= max
    ensures |Added(l, f, max)| <= max
    ensures f !in l && |l| == max ==> Added(l, f, max) == [f] + l[..max - 1]
  {
    if f !in l && |l| == max {
      assert ([f] + l)[..|l|] == [f] + l[..max - 1];
    }
  }

  /** No entry repeats. */
  predicate Distinct(l: seq<string>)
  {
    forall i, j :: 0 <= i < j < |l| ==> l[i] != l[j]
  }

  lemma DistinctCons(x: string, l: seq<string>)
    requires x !in l && Distinct(l)
    ensures Distinct([x] + l)
  {
    var r := [x] + l;
    forall i, j | 0 <= i < j < |r| ensures r[i] != r[j] {
      assert r[j] == l[j - 1];
      if i > 0 {
        assert r[i] == l[i - 1];
      }
    }
  }

  lemma {:induction false} DistinctCount(l: seq<string>, x: string)
    requires Distinct(l)
    ensures Count(l, x) <= 1
    decreases |l|
  {
    if l != [] {
      assert l == [l[0]] + l[1..];
      DistinctCount(l[1..], x);
      if l[0] == x {
        assert x !in l[1..];
      }
    }
  }

  lemma {:induction false} RemoveDistinct(l: seq<string>, f: string)
    requires f in l && Distinct(l)
    ensures Distinct(Remove(l, f))
  {
    if l[0] != f {
      RemoveDistinct(l[1..], f);
      assert l[0] !in l[1..];
      RemoveCount(l[1..], f);
      assert l[0] !in multiset(Remove(l[1..], f));
      DistinctCons(l[0], Remove(l[1..], f));
    }
  }

  /** add_file keeps a duplicate-free list duplicate-free. */
  lemma AddedDistinct(l: seq<string>, f: string, max: nat)
    requires max >= 1 && Distinct(l)
    ensures Distinct(Added(l, f, max))
  {
    DistinctCount(l, f);
    OthersFree(l, f);
    if f in l {
      RemoveDistinct(l, f);
    }
    DistinctCons(f, Others(l, f));
  }

  /** The text of MRU action i: '&%d %s' % (i, name). */
  function Label(i: nat, name: string): string
  {
    "&" + NatStr(i) + " " + name
  }

  /** Action i shows entry i of the list. */
  function Shown(i: nat, name: string): Action
  {
    Action(Label(i, name), name, true)
  }

  class MruFiles {
    /** settings.value(self.mru_list_key, []): the stored MRU list, newest first. */
    var stored: seq<string>
    /** self.mru_action_list: max_files File-menu actions. */
    var actions: array<Action>

    ghost predicate Valid()
      reads this
    {
      actions.Length == MaxFiles
    }

    /** The actions show the list: the first |list| visible with their entry, the rest hidden. */
    ghost predicate Displays(l: seq<string>)
      reads this, actions
    {
      |l| <= actions.Length
      && (forall i :: 0 <= i < |l| ==> actions[i] == Shown(i, l[i]))
      && (forall i :: |l| <= i < actions.Length ==> !actions[i].visible)
    }

    /** __init__: max_files hidden actions, then update_gui. */
    constructor (settings: seq<string>)
      ensures Valid() && fresh(actions) && stored == settings
      ensures |settings| <= MaxFiles ==> Displays(settings)
    {
      stored := settings;
      actions := new Action[MaxFiles](_ => Hidden);
      new;
      var raised := UpdateGui();
    }

    /** get_mru_list: a copy of the stored list. */
    function GetMruList(): seq<string>
      reads this
    {
      stored
    }

    /**
     * update_gui: action i gets the text '&i name', the data name and is made
     * visible, for each entry i; the remaining actions are hidden. A stored
     * list longer than the actions makes the Python loop raise IndexError
     * (`raised`) after the first max_files actions are updated.
     */
    method UpdateGui() returns (raised: bool)
      requires Valid()
      modifies actions
      ensures raised <==> |stored| > actions.Length
      ensures !raised ==> Displays(stored)
      ensures raised ==> forall i :: 0 <= i < actions.Length ==> actions[i] == Shown(i, stored[i])
      ensures !raised ==> forall i :: |stored| <= i < actions.Length ==> actions[i] == old(actions[i]).(visible := false)
    {
      var l := GetMruList();
      var index := 0;
      while index < |l|
        invariant 0 <= index <= |l|
        invariant index <= actions.Length
        invariant forall i :: 0 <= i < index ==> actions[i] == Shown(i, l[i])
        invariant forall i :: index <= i < actions.Length ==> actions[i] == old(actions[i])
      {
        if index >= actions.Length {
          return true;
        }
        actions[index] := Shown(index, l[index]);
        index := index + 1;
      }
      raised := false;
      index := |l|;
      while index < actions.Length
        invariant |l| <= index <= actions.Length
        invariant forall i :: 0 <= i < |l| ==> actions[i] == Shown(i, l[i])
        invariant forall i :: |l| <= i < index ==> actions[i] == old(actions[i]).(visible := false)
        invariant forall i :: index <= i < actions.Length ==> actions[i] == old(actions[i])
      {
        actions[index] := actions[index].(visible := false);
        index := index + 1;
      }
    }

    /**
     * add_file: f moves (or is put) on top of the stored list, which is
     * trimmed back to max_files, and the menu is updated.
     */
    method AddFile(f: string) returns (raised: bool)
      requires Valid()
      modifies this, actions
      ensures Valid() && actions == old(actions)
      ensures stored == Added(old(stored), f, MaxFiles)
      ensures |old(stored)| <= MaxFiles ==> !raised && Displays(stored)
    {
      var l := GetMruList();
      if f in l {
        l := Remove(l, f);
      }
      l := [f] + l;
      if |l| > MaxFiles {
        l := l[..|l| - 1];
      }
      stored := l;
      if |old(stored)| <= MaxFiles {
        AddedBounded(old(stored), f, MaxFiles);
      }
      raised := UpdateGui();
    }

    /**
     * open_mru: the file to open is the newest entry, and only when it
     * exists; None is the `return False` of an empty list or a missing file.
     */
    function OpenMru(existing: set<string>): (r: Option<string>)
      reads this
      ensures r.Some? <==> stored != [] && stored[0] in existing
      ensures r.Some? ==> r.value == stored[0]
    {
      var l := GetMruList();
      if l != [] && l[0] in existing then Some(l[0]) else None
    }
  }
}
