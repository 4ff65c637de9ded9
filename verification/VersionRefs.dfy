/** Reference counts of Versions and of the file descriptions they share (db/version_set.cpp: Version,
    VersionSet::Builder, AppendVersion).

    Versions, builders and file descriptions are numbered.  A version holds one reference to every file
    it lists and a builder one to every file it added; a version is held by being current, by the
    builders based on it and by the readers, iterators and compactions that use it. */
module VersionRefs {
  /** All files listed, as often as they are listed. */
  ghost function Listed(lists: map<nat, seq<nat>>): multiset<nat> {
    if lists == map[] then multiset{}
    else var k :| k in lists; multiset(lists[k]) + Listed(lists - {k})
  }

  lemma {:induction false} ListedWithout(lists: map<nat, seq<nat>>, k: nat)
    requires k in lists
    ensures Listed(lists) == multiset(lists[k]) + Listed(lists - {k})
  {
    var j :| j in lists && Listed(lists) == multiset(lists[j]) + Listed(lists - {j});
    if j != k {
      ListedWithout(lists - {j}, k);
      ListedWithout(lists - {k}, j);
      assert lists - {j} - {k} == lists - {k} - {j};
    }
  }

  lemma ListedPut(lists: map<nat, seq<nat>>, k: nat, files: seq<nat>)
    ensures Listed(lists[k := files]) == multiset(files) + Listed(lists - {k})
  {
    ListedWithout(lists[k := files], k);
    assert lists[k := files] - {k} == lists - {k};
  }

  /** A file description is alive exactly as long as something lists it, and counts how often. */
  ghost predicate Exact(refs: map<nat, nat>, listed: multiset<nat>) {
    (forall f :: f in refs <==> f in listed) && forall f :: f in refs ==> refs[f] == listed[f]
  }

  function Drop(refs: map<nat, nat>, f: nat): map<nat, nat>
    requires f in refs && refs[f] > 0
  {
    if refs[f] == 1 then refs - {f} else refs[f := refs[f] - 1]
  }

  lemma DropExact(refs: map<nat, nat>, listed: multiset<nat>, f: nat)
    requires Exact(refs, listed) && f in listed
    ensures f in refs && refs[f] > 0 && Exact(Drop(refs, f), listed - multiset{f})
  {
  }

  lemma AddExact(refs: map<nat, nat>, listed: multiset<nat>, f: nat)
    requires Exact(refs, listed)
    ensures Exact(refs[f := (if f in refs then refs[f] else 0) + 1], listed + multiset{f})
  {
  }

  /** The loop that drops the references of a version or of a builder that goes away. */
  method DropAll(refs0: map<nat, nat>, files: seq<nat>, ghost rest: multiset<nat>) returns (refs: map<nat, nat>)
    requires Exact(refs0, multiset(files) + rest)
    ensures Exact(refs, rest) && refs.Keys <= refs0.Keys
  {
    refs := refs0;
    for i := 0 to |files|
      invariant Exact(refs, multiset(files[i..]) + rest) && refs.Keys <= refs0.Keys
    {
      assert files[i..] == [files[i]] + files[i + 1..];
      DropExact(refs, multiset(files[i..]) + rest, files[i]);
      refs := Drop(refs, files[i]);
      assert multiset(files[i..]) + rest - multiset{files[i]} == multiset(files[i + 1..]) + rest;
    }
  }

  /** The loop by which a saved version takes a reference to each of its files. */
  method AddAll(refs0: map<nat, nat>, files: seq<nat>, ghost rest: multiset<nat>) returns (refs: map<nat, nat>)
    requires Exact(refs0, rest) && forall f :: f in files ==> f in refs0
    ensures Exact(refs, multiset(files) + rest) && refs.Keys == refs0.Keys
  {
    refs := refs0;
    for i := 0 to |files|
      invariant Exact(refs, multiset(files[..i]) + rest) && refs.Keys == refs0.Keys
    {
      AddExact(refs, multiset(files[..i]) + rest, files[i]);
      refs := refs[files[i] := refs[files[i]] + 1];
      assert files[..i + 1] == files[..i] + [files[i]];
      assert multiset(files[..i]) + rest + multiset{files[i]} == multiset(files[..i + 1]) + rest;
    }
    assert files[..|files|] == files;
  }

  //////////////////////////////////////////////////////////////////////////////
  // References to files.

  /** The live file descriptions, and which of them each version and each builder holds. */
  class FileTable {
    var refs: map<nat, nat>
    var lists: map<nat, seq<nat>>
    var last: nat

    ghost predicate Valid()
      reads this
    {
      Exact(refs, Listed(lists)) && forall f :: f in refs ==> f <= last
    }

    constructor ()
      ensures Valid() && lists == map[] && refs == map[]
    {
      refs, lists, last := map[], map[], 0;
    }

    /** SaveTo: a new version takes a reference to each file it lists; a new builder holds none yet. */
    method Own(k: nat, files: seq<nat>)
      requires Valid() && k !in lists && forall f :: f in files ==> f in refs
      modifies this
      ensures Valid() && lists == old(lists)[k := files] && lists.Keys == old(lists).Keys + {k}
              && refs.Keys == old(refs).Keys && last == old(last)
    {
      ListedPut(lists, k, files);
      assert lists - {k} == lists;
      refs := AddAll(refs, files, Listed(lists));
      lists := lists[k := files];
    }

    /** Builder::Apply makes a description for a new file, which the builder holds. */
    method NewFile(k: nat) returns (f: nat)
      requires Valid() && k in lists
      modifies this
      ensures Valid() && f !in old(refs) && f in refs && lists.Keys == old(lists).Keys
      ensures lists == old(lists)[k := old(lists)[k] + [f]]
    {
      f := last + 1;
      ListedWithout(lists, k);
      ListedPut(lists, k, lists[k] + [f]);
      AddExact(refs, Listed(lists), f);
      refs, last := refs[f := 1], f;
      lists := lists[k := lists[k] + [f]];
      assert Listed(lists) == Listed(old(lists)) + multiset{f};
    }

    /** The destructor of a version or a builder drops its references; files nobody else holds go. */
    method Disown(k: nat)
      requires Valid() && k in lists
      modifies this
      ensures Valid() && lists == old(lists) - {k} && lists.Keys == old(lists).Keys - {k} && last == old(last)
    {
      ListedWithout(lists, k);
      refs := DropAll(refs, lists[k], Listed(lists - {k}));
      lists := lists - {k};
    }

    /** A file description is alive exactly when some live version or builder lists it. */
    lemma AliveIffListed(f: nat)
      requires Valid()
      ensures f in refs <==> exists k :: k in lists && f in lists[k]
    {
      ListedIffSomewhere(lists, f);
    }
  }

  lemma {:induction false} ListedIffSomewhere(lists: map<nat, seq<nat>>, f: nat)
    ensures f in Listed(lists) <==> exists k :: k in lists && f in lists[k]
  {
    if lists != map[] {
      var k :| k in lists && Listed(lists) == multiset(lists[k]) + Listed(lists - {k});
      ListedIffSomewhere(lists - {k}, f);
      if j :| j in lists && f in lists[j] {
        assert j == k || j in lists - {k};
      }
      if j :| j in lists - {k} && f in (lists - {k})[j] {
        assert j in lists && f in lists[j];
      }
    }
  }

  //////////////////////////////////////////////////////////////////////////////
  // References to versions.

  /** The versions that builders are based on, once for each builder. */
  ghost function Bases(base: map<nat, nat>): multiset<nat> {
    Listed(map b | b in base :: [base[b]])
  }

  lemma BasesWithout(base: map<nat, nat>, b: nat)
    requires b in base
    ensures Bases(base) == Bases(base - {b}) + multiset{base[b]}
  {
    var lists := map c | c in base :: [base[c]];
    ListedWithout(lists, b);
    assert lists - {b} == map c | c in base - {b} :: [(base - {b})[c]];
  }

  /** Everything that refers to a version, once for each reference. */
  ghost function Holders(current: nat, base: map<nat, nat>, holds: multiset<nat>): multiset<nat> {
    multiset{current} + Bases(base) + holds
  }

  lemma BuilderHolds(current: nat, base: map<nat, nat>, holds: multiset<nat>, b: nat)
    requires b in base
    ensures Holders(current, base, holds) == Holders(current, base - {b}, holds) + multiset{base[b]}
  {
    BasesWithout(base, b);
  }

  lemma BuilderComesTo(refs: map<nat, nat>, current: nat, base: map<nat, nat>, holds: multiset<nat>, b: nat)
    requires Exact(refs, Holders(current, base, holds)) && b !in base
    ensures current in refs
    ensures Exact(refs[current := refs[current] + 1], Holders(current, base[b := current], holds))
  {
    assert current in Holders(current, base, holds);
    AddExact(refs, Holders(current, base, holds), current);
    assert base[b := current] - {b} == base;
    BuilderHolds(current, base[b := current], holds, b);
  }

  /** A version counts being current, the builders based on it, and those that use it. */
  class VersionTable {
    var refs: map<nat, nat>
    var current: nat
    /** The version each builder is based on. */
    var base: map<nat, nat>
    ghost var holds: multiset<nat>

    ghost function Due(): multiset<nat>
      reads this
    {
      Holders(current, base, holds)
    }

    ghost predicate Valid()
      reads this
    {
      Exact(refs, Due())
    }

    constructor (v: nat)
      ensures Valid() && current == v && refs == map[v := 1] && base == map[] && holds == multiset{}
    {
      refs, current, base, holds := map[v := 1], v, map[], multiset{};
    }

    /** Version::Ref by a reader, an iterator or a compaction. */
    method Ref(v: nat)
      requires Valid() && v in refs
      modifies this
      ensures Valid() && holds == old(holds) + multiset{v} && refs.Keys == old(refs).Keys
      ensures base == old(base) && current == old(current)
    {
      AddExact(refs, Due(), v);
      refs := refs[v := refs[v] + 1];
      holds := holds + multiset{v};
      assert Due() == old(Due()) + multiset{v};
    }

    /** Version::Unref, when `rest` is what is left of the references; says whether it was the last. */
    method Unref(v: nat, ghost rest: multiset<nat>) returns (gone: bool)
      requires Exact(refs, rest + multiset{v})
      modifies this`refs
      ensures Exact(refs, rest) && refs.Keys == old(refs).Keys - (if gone then {v} else {}) && gone == (v !in rest)
    {
      DropExact(refs, rest + multiset{v}, v);
      assert rest + multiset{v} - multiset{v} == rest;
      gone := refs[v] == 1;
      refs := Drop(refs, v);
    }

    method Release(v: nat) returns (gone: bool)
      requires Valid() && v in holds
      modifies this
      ensures Valid() && holds == old(holds) - multiset{v} && base == old(base) && current == old(current)
      ensures refs.Keys == old(refs).Keys - (if gone then {v} else {}) && gone == (v !in Due())
    {
      holds := holds - multiset{v};
      assert Due() + multiset{v} == old(Due());
      gone := Unref(v, Due());
    }

    /** A builder holds on to the current version. */
    method NewBuilder(b: nat)
      requires Valid() && b !in base
      modifies this
      ensures Valid() && base == old(base)[b := current] && base.Keys == old(base).Keys + {b}
      ensures holds == old(holds) && current == old(current) && refs.Keys == old(refs).Keys
    {
      BuilderComesTo(refs, current, base, holds, b);
      refs := refs[current := refs[current] + 1];
      base := base[b := current];
    }

    method DeleteBuilder(b: nat) returns (v: nat, gone: bool)
      requires Valid() && b in base
      modifies this
      ensures Valid() && base == old(base) - {b} && base.Keys == old(base).Keys - {b}
      ensures v == old(base)[b] && v in old(refs) && holds == old(holds) && current == old(current)
      ensures refs.Keys == old(refs).Keys - (if gone then {v} else {}) && gone == (v !in Due())
    {
      v := base[b];
      BuilderHolds(current, base, holds, b);
      base := base - {b};
      gone := Unref(v, Due());
    }

    lemma BaseIsAlive(b: nat)
      requires Valid() && b in base
      ensures base[b] in refs
    {
      BuilderHolds(current, base, holds, b);
      assert base[b] in Due();
    }

    /** AppendVersion: a version without references becomes current in place of another. */
    method AppendVersion(v: nat) returns (was: nat, gone: bool)
      requires Valid() && v !in refs
      modifies this
      ensures Valid() && current == v && was == old(current) && base == old(base) && holds == old(holds)
      ensures refs.Keys == old(refs).Keys - (if gone then {was} else {}) + {v} && gone == (was !in Due())
    {
      was := current;
      ghost var rest := Bases(base) + holds;
      assert Due() == rest + multiset{was};
      gone := Unref(was, rest);
      AddExact(refs, rest, v);
      refs := refs[v := 1];
      current := v;
      assert Due() == rest + multiset{v};
    }
  }

  //////////////////////////////////////////////////////////////////////////////
  // The list of versions.

  /** Exactly the live versions, the live builders and the versions being prepared hold files. */
  ghost predicate Owners(owners: set<nat>, alive: set<nat>, builders: set<nat>, saved: set<nat>, next: nat) {
    && owners == alive + builders + saved && alive !! builders && alive !! saved && builders !! saved
    && forall k :: k in owners ==> k < next
  }

  lemma VersionGoes(owners: set<nat>, alive: set<nat>, builders: set<nat>, saved: set<nat>, next: nat, v: nat)
    requires Owners(owners, alive, builders, saved, next) && v in alive
    ensures v in owners && Owners(owners - {v}, alive - {v}, builders, saved, next)
  {
  }

  lemma BuilderComes(owners: set<nat>, alive: set<nat>, builders: set<nat>, saved: set<nat>, next: nat)
    requires Owners(owners, alive, builders, saved, next)
    ensures next !in owners && next !in builders && Owners(owners + {next}, alive, builders + {next}, saved, next + 1)
  {
  }

  lemma BuilderGoes(owners: set<nat>, alive: set<nat>, builders: set<nat>, saved: set<nat>, next: nat, b: nat)
    requires Owners(owners, alive, builders, saved, next) && b in builders
    ensures b in owners && b !in alive && Owners(owners - {b}, alive, builders - {b}, saved, next)
  {
  }

  lemma VersionComes(owners: set<nat>, alive: set<nat>, builders: set<nat>, saved: set<nat>, next: nat)
    requires Owners(owners, alive, builders, saved, next)
    ensures next !in owners && Owners(owners + {next}, alive, builders, saved + {next}, next + 1)
  {
  }

  lemma VersionInstalled(owners: set<nat>, alive: set<nat>, builders: set<nat>, saved: set<nat>, next: nat, v: nat)
    requires Owners(owners, alive, builders, saved, next) && v in saved
    ensures v !in alive && Owners(owners, alive + {v}, builders, saved - {v}, next)
  {
  }

  class VersionList {
    const files: FileTable
    const versions: VersionTable
    /** Versions a builder filled in that are not installed yet; they have no references. */
    var saved: set<nat>
    var next: nat

    ghost predicate Valid()
      reads this, files, versions
    {
      files.Valid() && versions.Valid() && Owners(files.lists.Keys, versions.refs.Keys, versions.base.Keys, saved, next)
    }

    ghost function Files(k: nat): seq<nat>
      reads files
    {
      if k in files.lists then files.lists[k] else []
    }

    constructor ()
      ensures Valid() && fresh(files) && fresh(versions) && saved == {} && files.lists == map[versions.current := []]
    {
      files := new FileTable();
      versions := new VersionTable(0);
      saved, next := {}, 1;
      new;
      files.Own(0, []);
    }

    method Ref(v: nat)
      requires Valid() && v in versions.refs
      modifies versions
      ensures Valid() && versions.holds == old(versions.holds) + multiset{v}
      ensures versions.current == old(versions.current) && versions.base == old(versions.base)
    {
      versions.Ref(v);
    }

    /** The end of Version::Unref: a version without references goes, and drops its files. */
    method Sweep(v: nat, gone: bool, ghost alive: set<nat>, ghost builders: set<nat>)
      requires files.Valid() && Owners(files.lists.Keys, alive, builders, saved, next) && (gone ==> v in alive)
      modifies files
      ensures files.Valid() && files.lists == old(files.lists) - (if gone then {v} else {})
      ensures Owners(files.lists.Keys, alive - (if gone then {v} else {}), builders, saved, next)
    {
      if gone {
        VersionGoes(files.lists.Keys, alive, builders, saved, next, v);
        files.Disown(v);
      } else {
        assert files.lists - {} == files.lists && alive - {} == alive;
      }
    }

    /** Version::Unref: the last reference deletes the version, and with it the files nobody else lists. */
    method Unref(v: nat)
      requires Valid() && v in versions.holds
      modifies versions, files
      ensures Valid() && versions.holds == old(versions.holds) - multiset{v}
      ensures versions.current == old(versions.current) && versions.base == old(versions.base)
      ensures files.lists == old(files.lists) - (if v in versions.Due() then {} else {v})
    {
      var gone := versions.Release(v);
      Sweep(v, gone, old(versions.refs).Keys, versions.base.Keys);
    }

    method NewBuilder() returns (b: nat)
      requires Valid()
      modifies this, versions, files
      ensures Valid() && saved == old(saved) && files.lists == old(files.lists)[b := []] && b !in old(files.lists)
      ensures versions.base == old(versions.base)[b := versions.current]
      ensures versions.current == old(versions.current) && versions.holds == old(versions.holds)
    {
      BuilderComes(files.lists.Keys, versions.refs.Keys, versions.base.Keys, saved, next);
      b := next;
      next := next + 1;
      files.Own(b, []);
      versions.NewBuilder(b);
    }

    /** Builder::Apply of one added file. */
    method ApplyFile(b: nat) returns (f: nat)
      requires Valid() && b in versions.base
      modifies files
      ensures Valid() && f !in old(files.refs) && files.lists == old(files.lists)[b := old(files.lists)[b] + [f]]
    {
      f := files.NewFile(b);
    }

    lemma KeptAreAlive(base: nat, b: nat, list: seq<nat>)
      requires files.Valid() && forall f :: f in list ==> f in Files(base) || f in Files(b)
      ensures forall f :: f in list ==> f in files.refs
    {
      forall f | f in list ensures f in files.refs {
        files.AliveIffListed(f);
      }
    }

    /** Builder::SaveTo: whatever it keeps of the base version and of its own files is still there. */
    method SaveTo(b: nat, list: seq<nat>) returns (v: nat)
      requires Valid() && b in versions.base
      requires var base := versions.base[b];
               forall f :: f in list ==> f in Files(base) || f in Files(b)
      modifies this, files
      ensures Valid() && v !in old(files.lists) && files.lists == old(files.lists)[v := list]
              && saved == old(saved) + {v}
    {
      VersionComes(files.lists.Keys, versions.refs.Keys, versions.base.Keys, saved, next);
      v := next;
      next := next + 1;
      KeptAreAlive(versions.base[b], b, list);
      files.Own(v, list);
      saved := saved + {v};
    }

    /** The destructor of a builder. */
    method DeleteBuilder(b: nat)
      requires Valid() && b in versions.base
      modifies versions, files
      ensures Valid() && versions.base == old(versions.base) - {b}
      ensures versions.current == old(versions.current) && versions.holds == old(versions.holds)
      ensures var v := old(versions.base)[b];
              files.lists == old(files.lists) - {b} - (if v in versions.Due() then {} else {v})
    {
      ghost var alive := versions.refs.Keys;
      BuilderGoes(files.lists.Keys, alive, versions.base.Keys, saved, next, b);
      files.Disown(b);
      var v, gone := versions.DeleteBuilder(b);
      Sweep(v, gone, alive, versions.base.Keys);
    }

    /** AppendVersion makes a prepared version current and drops the reference to the one before. */
    method AppendVersion(v: nat)
      requires Valid() && v in saved
      modifies this, versions, files
      ensures Valid() && versions.current == v && saved == old(saved) - {v}
      ensures versions.base == old(versions.base) && versions.holds == old(versions.holds)
      ensures var was := old(versions.current);
              files.lists == old(files.lists) - (if was in versions.Due() then {} else {was})
    {
      VersionInstalled(files.lists.Keys, versions.refs.Keys, versions.base.Keys, saved, next, v);
      saved := saved - {v};
      var was, gone := versions.AppendVersion(v);
      ghost var alive := old(versions.refs).Keys + {v};
      assert versions.refs.Keys == alive - (if gone then {was} else {});
      Sweep(was, gone, alive, versions.base.Keys);
    }

    /** A file description is alive exactly when a version in use, a builder or a version being prepared
        lists it. */
    lemma FileAliveIff(f: nat)
      requires Valid()
      ensures f in files.refs <==>
              exists k :: k in files.lists && f in files.lists[k]
                          && (k in versions.Due() || k in versions.base || k in saved)
    {
      files.AliveIffListed(f);
    }
  }
}
