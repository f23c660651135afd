/** The download cache: a most-recently-used-first list of names, kept in memory and in a
    file, beside the directories it names. */
module Downloads {

  const KEEP_LRU := 5
  const STAGING_SUFFIX := ".staging"

  /** How writing the list to its file ended: done, the file could not be opened and is as
      before, or it was truncated and holds nothing that can be read back. */
  datatype Save = Saved | NotOpened | Truncated

  /** What a new process would load after the list `l` was saved over the file's `before`. */
  function Written(save: Save, l: seq<string>, before: seq<string>): seq<string> {
    match save
    case Saved => l
    case NotOpened => before
    case Truncated => []
  }

  lemma NotWritten(save: Save, l: seq<string>, before: seq<string>, name: string)
    ensures !save.Saved? && name !in before ==> name !in Written(save, l, before)
  {
  }

  predicate Staging(name: string) {
    |STAGING_SUFFIX| <= |name| && name[|name| - |STAGING_SUFFIX|..] == STAGING_SUFFIX
  }

  lemma StagingName(name: string)
    ensures Staging(name + STAGING_SUFFIX) && name + STAGING_SUFFIX != name
  {
    assert |name + STAGING_SUFFIX| == |name| + |STAGING_SUFFIX|;
  }

  predicate First(l: seq<string>, name: string) {
    l != [] && l[0] == name
  }

  /** The list without the first occurrence of a name. */
  function RemoveFirst(l: seq<string>, name: string): seq<string> {
    if l == [] then []
    else if l[0] == name then l[1..]
    else [l[0]] + RemoveFirst(l[1..], name)
  }

  /** The list without any occurrence of a name. */
  function Retain(l: seq<string>, name: string): seq<string> {
    if l == [] then []
    else if l[0] == name then Retain(l[1..], name)
    else [l[0]] + Retain(l[1..], name)
  }

  /** The list names no one twice and is in order of last use, most recent first. */
  ghost predicate Recent(l: seq<string>, used: map<string, nat>) {
    && (forall i :: 0 <= i < |l| ==> l[i] in used)
    && (forall i, j :: 0 <= i < j < |l| ==> l[i] != l[j] && used[l[i]] > used[l[j]])
  }

  ghost predicate Past(used: map<string, nat>, now: nat) {
    forall x :: x in used ==> used[x] < now
  }

  lemma {:induction false} RetainMembers(l: seq<string>, name: string)
    ensures forall x :: x in Retain(l, name) <==> x in l && x != name
    ensures |Retain(l, name)| <= |l|
    decreases |l|
  {
    if l != [] {
      RetainMembers(l[1..], name);
      assert l == [l[0]] + l[1..];
    }
  }

  lemma {:induction false} RetainRecent(l: seq<string>, name: string, used: map<string, nat>)
    requires Recent(l, used)
    ensures Recent(Retain(l, name), used)
    decreases |l|
  {
    if l != [] {
      var rest := Retain(l[1..], name);
      RetainMembers(l[1..], name);
      RetainRecent(l[1..], name, used);
      forall i | 0 <= i < |rest|
        ensures l[0] != rest[i] && used[l[0]] > used[rest[i]]
      {
        assert rest[i] in rest && rest[i] in l[1..];
      }
    }
  }

  /** On a list that names no one twice, dropping the first occurrence drops them all. */
  lemma {:induction false} RemoveFirstIsRetain(l: seq<string>, name: string)
    requires forall i, j :: 0 <= i < j < |l| ==> l[i] != l[j]
    ensures RemoveFirst(l, name) == Retain(l, name)
    decreases |l|
  {
    if l != [] {
      RemoveFirstIsRetain(l[1..], name);
      if l[0] == name {
        assert name !in l[1..];
        RetainAbsent(l[1..], name);
      }
    }
  }

  lemma {:induction false} RetainAbsent(l: seq<string>, name: string)
    requires name !in l
    ensures Retain(l, name) == l
    decreases |l|
  {
    if l != [] {
      RetainAbsent(l[1..], name);
    }
  }

  /** Moving a name to the front keeps the order of last use, when that use is the latest. */
  lemma TouchedRecent(l: seq<string>, name: string, used: map<string, nat>, now: nat)
    requires Recent(l, used) && Past(used, now)
    ensures Recent([name] + RemoveFirst(l, name), used[name := now])
    ensures forall x :: x in [name] + RemoveFirst(l, name) <==> x == name || x in l
    ensures |RemoveFirst(l, name)| <= |l|
  {
    hide RemoveFirst, Retain;
    RemoveFirstIsRetain(l, name);
    RetainRecent(l, name, used);
    RetainMembers(l, name);
    var rest := RemoveFirst(l, name);
    assert forall i :: 0 <= i < |rest| ==> rest[i] in rest;
  }

  /** Dropping the last name of a recency list drops the one used before all the others. */
  lemma LastIsLeastRecent(l: seq<string>, used: map<string, nat>)
    requires Recent(l, used) && |l| > 1
    ensures Recent(l[..|l| - 1], used) && l[|l| - 1] != l[0]
    ensures forall x :: x in l[..|l| - 1] <==> x in l && x != l[|l| - 1]
    ensures forall x :: x in l[..|l| - 1] ==> used[l[|l| - 1]] < used[x]
  {
    var front, f := l[..|l| - 1], l[|l| - 1];
    assert l == front + [f];
    forall x | x in front
      ensures used[f] < used[x] && x != f
    {
      var i :| 0 <= i < |front| && front[i] == x;
      assert l[i] == x;
    }
  }

  /** Every finished directory is in the list. */
  ghost predicate Named(disk: set<string>, l: seq<string>) {
    forall x :: x in disk && !Staging(x) ==> x in l
  }

  /** Whether a process that starts now would still have every finished directory in its
      list, by how the last save of `l` ended: always if it succeeded; if the file could not
      be opened, exactly if the file named them all before; if the file was truncated,
      exactly if there are none. */
  lemma RestartAgrees(disk: set<string>, l: seq<string>, file: seq<string>, save: Save)
    requires Named(disk, l)
    ensures Named(disk, Written(save, l, file)) <==>
      match save
      case Saved => true
      case NotOpened => Named(disk, file)
      case Truncated => forall x :: x in disk ==> Staging(x)
  {
  }

  /** `victim` was used before everything the list still has, and is not in it. */
  ghost predicate LeastRecent(victim: string, l: seq<string>, used: map<string, nat>) {
    && victim !in l && victim in used
    && (forall x :: x in l ==> x in used && used[victim] < used[x])
  }

  /** The list `l` that a touch leaves in order, and the disk, after the eviction: only a list
      that is too long loses a name, the least recently used one, with its directory, and
      not the name just touched; it keeps that name if the directory cannot be removed. */
  ghost predicate AfterTouch(l: seq<string>, disk: set<string>, removable: bool,
    l': seq<string>, disk': set<string>, used: map<string, nat>)
  {
    if |l| <= KEEP_LRU || (!removable && l[|l| - 1] in disk) then
      l' == l && disk' == disk
    else
      var victim := l[|l| - 1];
      l' == l[..|l| - 1] && disk' == disk - {victim} && victim != l[0] && LeastRecent(victim, l', used)
  }

  /** The step of a session, with how the host's part of it ends. */
  datatype Action =
    | Exists(name: string, removable: bool, save: Save)
    | Delete(name: string, removable: bool, save: Save)
    | Create(name: string, created: bool, renamed: bool, removable: bool, save: Save)
    | Restart

  class DownloadCache {
    var list: seq<string>        // the state in memory
    var file: seq<string>        // what a new process would load
    var disk: set<string>        // the directories under the cache path
    ghost var used: map<string, nat>  // when each name was last touched
    ghost var now: nat
    ghost var failedRemovals: nat
    var saved: bool              // whether the last save succeeded; only sessions look at it

    ghost predicate Valid()
      reads this
    {
      && Recent(list, used) && Past(used, now)
      && Named(disk, list)
      && |list| <= KEEP_LRU + failedRemovals
      && (saved ==> file == list)
    }

    constructor ()
      ensures Valid() && list == [] && file == [] && disk == {} && failedRemovals == 0 && saved
    {
      list, file, disk, used, now, failedRemovals, saved := [], [], {}, map[], 0, 0, true;
    }

    /** The list in memory is replaced even if writing the file fails. */
    method SaveList(l: seq<string>, save: Save) returns (ok: bool)
      modifies `list, `file, `saved
      ensures list == l && ok == saved == save.Saved?
      ensures file == Written(save, l, old(file))
    {
      list := l;
      file := Written(save, l, file);
      ok := save.Saved?;
      saved := ok;
    }

    /** Moves a name to the front; if the list is then too long, evicts its last entry unless
        its directory cannot be removed. */
    method Touch(name: string, removable: bool, save: Save) returns (ok: bool)
      requires Valid()
      modifies this
      ensures Valid() && First(list, name) && ok == saved == save.Saved?
      ensures file == Written(save, list, old(file))
      ensures used == old(used)[name := old(now)] && failedRemovals <= old(failedRemovals) + 1
      ensures AfterTouch([name] + RemoveFirst(old(list), name), old(disk), removable, list, disk, used)
    {
      hide Valid, RemoveFirst, Recent, Past, Named, AfterTouch, LeastRecent;
      var l := [name] + RemoveFirst(list, name);
      TouchedBefore(name);
      used, now := used[name := now], now + 1;
      if |l| > KEEP_LRU {
        var f := l[|l| - 1];
        Evicted(l, used, disk, removable);
        if f !in disk {
          assert disk == disk - {f};
          l := l[..|l| - 1];
        } else if removable {
          disk := disk - {f};
          l := l[..|l| - 1];
        } else {
          failedRemovals := failedRemovals + 1;
        }
      } else {
        NotEvicted(l, used, disk, removable);
      }
      ok := SaveList(l, save);
      TouchedAfter(l);
    }

    lemma TouchedBefore(name: string)
      requires Valid()
      ensures Recent([name] + RemoveFirst(list, name), used[name := now])
      ensures Past(used[name := now], now + 1)
      ensures forall x :: x in [name] + RemoveFirst(list, name) <==> x == name || x in list
      ensures Named(disk, [name] + RemoveFirst(list, name))
      ensures |[name] + RemoveFirst(list, name)| <= KEEP_LRU + failedRemovals + 1
    {
      TouchedRecent(list, name, used, now);
    }

    static lemma Evicted(l: seq<string>, used: map<string, nat>, disk: set<string>, removable: bool)
      requires Recent(l, used) && |l| > KEEP_LRU && Named(disk, l)
      ensures Recent(l[..|l| - 1], used) && Named(disk - {l[|l| - 1]}, l[..|l| - 1])
      ensures removable || l[|l| - 1] !in disk ==>
        AfterTouch(l, disk, removable, l[..|l| - 1], disk - {l[|l| - 1]}, used)
      ensures !removable && l[|l| - 1] in disk ==> AfterTouch(l, disk, removable, l, disk, used)
    {
      LastIsLeastRecent(l, used);
      assert l == l[..|l| - 1] + [l[|l| - 1]];
    }

    static lemma NotEvicted(l: seq<string>, used: map<string, nat>, disk: set<string>, removable: bool)
      requires |l| <= KEEP_LRU
      ensures AfterTouch(l, disk, removable, l, disk, used)
    {
    }

    lemma TouchedAfter(l: seq<string>)
      requires Recent(l, used) && Past(used, now)
      requires Named(disk, l) && |l| <= KEEP_LRU + failedRemovals && list == l && (saved ==> file == l)
      ensures Valid()
    {
    }

    /** Whether the directory is there; if so it counts as used. */
    method Exists(name: string, removable: bool, save: Save) returns (found: bool)
      requires Valid()
      modifies this
      ensures Valid() && found == (name in old(disk)) && (found ==> name in disk && First(list, name))
      ensures found ==> AfterTouch([name] + RemoveFirst(old(list), name), old(disk), removable, list, disk, used)
      ensures !found ==> list == old(list) && file == old(file) && disk == old(disk)
      ensures old(saved) && save.Saved? ==> saved
      ensures failedRemovals <= old(failedRemovals) + 1
    {
      found := name in disk;
      if found {
        var _ := Touch(name, removable, save);
      }
    }

    /** Removes a directory and its name; if the directory cannot be removed, nothing
        changes. */
    method Delete(name: string, removable: bool, save: Save) returns (ok: bool)
      requires Valid()
      modifies `list, `file, `disk, `saved
      ensures Valid() && ok == ((name !in old(disk) || removable) && save.Saved?)
      ensures name in old(disk) && !removable ==> list == old(list) && file == old(file) && disk == old(disk)
      ensures name !in old(disk) || removable ==>
        disk == old(disk) - {name} && name !in list && list == RemoveFirst(old(list), name)
      ensures old(saved) && save.Saved? ==> saved
    {
      if name in disk {
        if !removable {
          return false;
        }
        disk := disk - {name};
      }
      RetainMembers(list, name);
      RetainRecent(list, name, used);
      RemoveFirstIsRetain(list, name);
      ok := SaveList(Retain(list, name), save);
    }

    /** Creates a directory under a staging name and renames it when it is complete. */
    method Create(name: string, created: bool, renamed: bool, removable: bool, save: Save) returns (ok: bool)
      requires Valid()
      modifies this
      ensures Valid() && (ok ==> name in disk)
      ensures name in old(disk) ==> ok && disk == old(disk) && list == old(list) && file == old(file)
      ensures ok && name !in old(disk) ==> created && renamed && First(list, name) && name + STAGING_SUFFIX !in disk
      ensures !ok ==> name !in disk && (created ==> First(list, name))
      ensures name !in old(disk) && !created ==> list == old(list) && disk == old(disk) + {name + STAGING_SUFFIX}
      ensures name !in old(disk) && created ==>
        AfterTouch([name] + RemoveFirst(old(list), name), old(disk) + {name + STAGING_SUFFIX}, removable, list,
                   if ok then disk - {name} + {name + STAGING_SUFFIX} else disk, used)
      ensures created && renamed && name + STAGING_SUFFIX !in old(list) ==> ok
      ensures created && name !in old(disk) ==> file == Written(save, list, old(file))
      ensures old(saved) && save.Saved? ==> saved
      // a new directory that the file did not name, and a save that fails: a restart forgets it
      ensures ok && name !in old(disk) && name !in old(file) && !save.Saved? && !Staging(name) ==> !Named(disk, file)
      ensures failedRemovals <= old(failedRemovals) + 1
    {
      hide Recent, Past, RemoveFirst, Staging, LeastRecent, Written;
      if name in disk {
        return true;
      }
      StagingName(name);
      var staging := name + STAGING_SUFFIX;
      TouchedBefore(name);
      disk := disk + {staging};
      if !created {
        return false;
      }
      var _ := Touch(name, removable, save);
      ghost var touched := disk;
      if !renamed || staging !in disk {
        return false;
      }
      disk := disk - {staging} + {name};
      NotWritten(save, list, old(file), name);
      assert disk - {name} + {staging} == touched;
      return true;
    }

    /** A new process starts from the file. */
    method Restart()
      requires Valid()
      modifies `list
      ensures list == file
      ensures saved ==> Valid() && list == old(list)
      ensures Named(disk, list) <==> Named(disk, file)
    {
      list := file;
    }

    /** A whole session, up to the first process that starts when the last save had failed:
        until there list and disk agree, whatever else fails. There is no such start if
        every save succeeds, or if no new process starts at all. */
    method Perform(actions: seq<Action>) returns (n: nat)
      requires Valid()
      modifies this
      ensures Valid() && n <= |actions| && (n < |actions| ==> actions[n].Restart? && !saved)
      ensures failedRemovals <= old(failedRemovals) + n
      ensures old(saved) && (forall i :: 0 <= i < |actions| ==> actions[i].Restart? || actions[i].save.Saved?)
        ==> n == |actions|
      ensures (forall i :: 0 <= i < |actions| ==> !actions[i].Restart?) ==> n == |actions|
    {
      n := 0;
      while n < |actions|
        invariant Valid() && n <= |actions| && failedRemovals <= old(failedRemovals) + n
        invariant old(saved) && (forall i :: 0 <= i < n ==> actions[i].Restart? || actions[i].save.Saved?) ==> saved
      {
        match actions[n] {
          case Exists(name, removable, save) => var _ := Exists(name, removable, save);
          case Delete(name, removable, save) => var _ := Delete(name, removable, save);
          case Create(name, created, renamed, removable, save) =>
            var _ := Create(name, created, renamed, removable, save);
          case Restart =>
            if !saved {
              return;
            }
            Restart();
        }
        n := n + 1;
      }
    }
  }

  /** One failed save before a restart is enough to leave a directory that no list names, and
      that nothing will therefore ever evict. */
  method LostName() returns (c: DownloadCache)
    ensures fresh(c) && "a" in c.disk && !Staging("a") && c.list == []
  {
    c := new DownloadCache();
    var _ := c.Create("a", true, true, true, NotOpened);
    c.Restart();
  }
}
