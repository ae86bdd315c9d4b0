/**
 `_ensure_schema` of control-plane/main.py: the base schema and the migration files, under crashes
 and restarts.  A run of the startup is cut after any number of database actions; each action is
 atomic, as its transaction makes it.  `log` lists what ever took effect.
 */
module Migrations {
  import opened Text

  datatype Effect = BaseSchema | Migration(name: string)

  /** `named` is the table schema_migrations, None until it exists. */
  datatype Db = Db(tablesExist: bool, named: Option<set<string>>, log: seq<Effect>)

  const EMPTY: Db := Db(false, None, [])

  // ---------------------------------------------------------------- sorted file names

  /** `sorted` compares code points. */
  predicate Below(a: string, b: string) {
    if b == "" then false
    else if a == "" then true
    else a[0] < b[0] || (a[0] == b[0] && Below(a[1..], b[1..]))
  }

  predicate Sorted(files: seq<string>) { forall i, j :: 0 <= i < j < |files| ==> Below(files[i], files[j]) }

  lemma {:induction false} BelowIsStrict(a: string)
    ensures !Below(a, a)
  {
    if a == "" {
    } else {
      BelowIsStrict(a[1..]);
    }
  }

  lemma {:induction false} BelowIsTotal(a: string, b: string)
    ensures a == b || Below(a, b) || Below(b, a)
    ensures !(Below(a, b) && Below(b, a))
  {
    if a == "" || b == "" {
    } else {
      BelowIsTotal(a[1..], b[1..]);
      assert a == [a[0]] + a[1..] && b == [b[0]] + b[1..];
    }
  }

  lemma {:induction false} BelowIsTransitive(a: string, b: string, c: string)
    requires Below(a, b) && Below(b, c)
    ensures Below(a, c)
  {
    if a == "" || b == "" || c == "" {
    } else if a[0] == b[0] && b[0] == c[0] {
      BelowIsTransitive(a[1..], b[1..], c[1..]);
    }
  }

  function Effects(names: seq<string>): (r: seq<Effect>)
    ensures |r| == |names| && forall k :: 0 <= k < |names| ==> r[k] == Migration(names[k])
  {
    seq(|names|, k requires 0 <= k < |names| => Migration(names[k]))
  }

  // ---------------------------------------------------------------- one startup

  /** The loop over the sorted files: at most `budget` transactions happen before the crash. */
  function Apply(db: Db, files: seq<string>, applied: set<string>, budget: nat): Db
    requires db.named.Some?
    decreases |files|
  {
    if files == [] then db
    else if files[0] in applied then Apply(db, files[1..], applied, budget)
    else if budget == 0 then db
    else Apply(db.(named := Some(db.named.value + {files[0]}), log := db.log + [Migration(files[0])]),
               files[1..], applied, budget - 1)
  }

  /** A startup that gets through `budget` database actions. */
  function Boot(db: Db, files: seq<string>, budget: nat): Db {
    if budget == 0 then db
    else
      var d1 := if db.named.Some? then db else db.(named := Some({}));
      if db.tablesExist then Apply(d1, files, d1.named.value, budget - 1)
      else if budget == 1 then d1
      else
        var d2 := d1.(tablesExist := true, log := d1.log + [BaseSchema]);
        Apply(d2, files, d2.named.value, budget - 2)
  }

  /** Did it reach the end? */
  predicate Finished(db: Db, files: seq<string>) {
    db.tablesExist && db.named.Some? && forall f :: f in files ==> f in db.named.value
  }

  /** The control plane's database. */
  class ControlPlane {
    var tablesExist: bool
    var named: Option<set<string>>
    var log: seq<Effect>

    function View(): Db
      reads this
    {
      Db(tablesExist, named, log)
    }

    constructor (db: Db)
      ensures View() == db
    {
      tablesExist, named, log := db.tablesExist, db.named, db.log;
    }

    method EnsureSchema(files: seq<string>, budget: nat)
      modifies this
      ensures View() == Boot(old(View()), files, budget)
    {
      var left := budget;
      var exists_ := tablesExist;
      if left == 0 {
        return;
      }
      if named.None? {
        named := Some({});
      }
      left := left - 1;
      if !exists_ {
        if left == 0 {
          return;
        }
        tablesExist, log, left := true, log + [BaseSchema], left - 1;
      }
      var applied := named.value;
      ghost var start, all := View(), left;
      for k := 0 to |files|
        invariant named.Some?
        invariant Apply(View(), files[k..], applied, left) == Apply(start, files, applied, all)
      {
        assert files[k..][1..] == files[k + 1..];
        if files[k] !in applied {
          if left == 0 {
            return;
          }
          named := Some(named.value + {files[k]});
          log := log + [Migration(files[k])];
          left := left - 1;
        }
      }
    }
  }

  // ---------------------------------------------------------------- what every startup keeps

  /** The log is the base schema and then the recorded migrations, none of them twice. */
  ghost predicate Faithful(db: Db) {
    && (db.named.None? ==> db.log == [] && !db.tablesExist)
    && (!db.tablesExist ==> db.log == [])
    && (db.tablesExist ==> db.log != [] && db.log[0] == BaseSchema)
    && (forall k :: 1 <= k < |db.log| ==> db.log[k].Migration?)
    && (db.named.Some? ==> forall x :: x in db.named.value <==> Migration(x) in db.log)
    && (forall i, j :: 0 <= i < j < |db.log| ==> db.log[i] != db.log[j])
  }

  lemma {:induction false} ApplyKeepsFaithful(db: Db, files: seq<string>, applied: set<string>, budget: nat)
    requires db.named.Some? && db.tablesExist && Faithful(db) && Sorted(files)
    requires forall f :: f in files ==> (f in applied <==> f in db.named.value)
    ensures var after := Apply(db, files, applied, budget);
            Faithful(after) && after.named.Some? && after.tablesExist && db.log <= after.log
    decreases |files|
  {
    if files == [] {
    } else {
      var f, rest := files[0], files[1..];
      assert Sorted(rest);
      if f in applied {
        ApplyKeepsFaithful(db, rest, applied, budget);
      } else if budget > 0 {
        var next := db.(named := Some(db.named.value + {f}), log := db.log + [Migration(f)]);
        forall g | g in rest ensures g != f {
          var j :| 0 <= j < |rest| && rest[j] == g;
          assert Below(files[0], files[j + 1]);
          BelowIsStrict(f);
        }
        assert f in files && Migration(f) !in db.log;
        ApplyKeepsFaithful(next, rest, applied, budget - 1);
      }
    }
  }

  lemma BootKeepsFaithful(db: Db, files: seq<string>, budget: nat)
    requires Faithful(db) && Sorted(files)
    ensures Faithful(Boot(db, files, budget)) && db.log <= Boot(db, files, budget).log
  {
    if budget > 0 {
      var d1 := if db.named.Some? then db else db.(named := Some({}));
      if db.tablesExist {
        ApplyKeepsFaithful(d1, files, d1.named.value, budget - 1);
      } else if budget > 1 {
        var d2 := d1.(tablesExist := true, log := d1.log + [BaseSchema]);
        assert d2.log == [BaseSchema];
        ApplyKeepsFaithful(d2, files, d2.named.value, budget - 2);
      }
    }
  }

  // ---------------------------------------------------------------- prefixes of the sorted list

  /** The log is the base schema followed by the first k files of the sorted list. */
  predicate IsPrefix(db: Db, files: seq<string>) {
    db.log == [] || (exists k :: 0 <= k <= |files| && LogIs(db, files, k))
  }

  predicate LogIs(db: Db, files: seq<string>, k: nat)
    requires k <= |files|
  {
    db.log == [BaseSchema] + Effects(files[..k])
  }

  /** With the first `done` files applied, the loop applies the next ones in order. */
  lemma {:induction false} ApplyContinues(db: Db, all: seq<string>, at: nat, done: nat, applied: set<string>, budget: nat)
    requires db.named.Some? && at <= |all| && done <= |all| && Sorted(all)
    requires LogIs(db, all, if at < done then done else at)
    requires forall k :: 0 <= k < |all| ==> (all[k] in applied <==> k < done)
    ensures var n := if at < done then done else at;
            var m := if budget < |all| - n then n + budget else |all|;
            m <= |all| && LogIs(Apply(db, all[at..], applied, budget), all, m)
    decreases |all| - at
  {
    if at == |all| {
    } else {
      assert all[at..][1..] == all[at + 1..];
      if at < done {
        assert all[at] in applied;
        ApplyContinues(db, all, at + 1, done, applied, budget);
      } else if budget > 0 {
        var next := db.(named := Some(db.named.value + {all[at]}), log := db.log + [Migration(all[at])]);
        assert [BaseSchema] + Effects(all[..at + 1]) == [BaseSchema] + Effects(all[..at]) + [Migration(all[at])];
        ApplyContinues(next, all, at + 1, done, applied, budget - 1);
      }
    }
  }

  lemma PrefixNames(db: Db, files: seq<string>, k: nat)
    requires Faithful(db) && db.named.Some? && k <= |files| && LogIs(db, files, k) && Sorted(files)
    ensures forall i :: 0 <= i < |files| ==> (files[i] in db.named.value <==> i < k)
  {
    forall i | 0 <= i < |files| ensures files[i] in db.named.value <==> i < k {
      if i < k {
        assert db.log[i + 1] == Effects(files[..k])[i] == Migration(files[i]);
        assert Migration(files[i]) in db.log;
      } else if files[i] in db.named.value {
        assert Migration(files[i]) in db.log;
        var j :| 0 <= j < |db.log| && db.log[j] == Migration(files[i]);
        assert db.log[j] == Effects(files[..k])[j - 1];
        assert Below(files[j - 1], files[i]);
        BelowIsStrict(files[i]);
      }
    }
  }

  lemma NothingNamedYet(db: Db)
    requires Faithful(db) && db.named.Some? && db.log == []
    ensures db.named.value == {}
  {
  }

  lemma ApplyExtends(db: Db, files: seq<string>, k: nat, budget: nat)
    requires Faithful(db) && db.named.Some? && Sorted(files) && k <= |files| && LogIs(db, files, k)
    ensures var after := Apply(db, files, db.named.value, budget);
            IsPrefix(after, files) && (budget >= |files| ==> after.log == [BaseSchema] + Effects(files))
  {
    PrefixNames(db, files, k);
    assert files[0..] == files;
    ApplyContinues(db, files, 0, k, db.named.value, budget);
    assert files[..|files|] == files;
  }

  lemma BaseIsPrefix(db: Db, files: seq<string>)
    requires db.log == [BaseSchema]
    ensures LogIs(db, files, 0)
  {
  }

  lemma FirstBoot(db: Db, files: seq<string>, budget: nat)
    requires Faithful(db) && db.named.Some? && !db.tablesExist && Sorted(files)
    ensures var after := Apply(db.(tablesExist := true, log := db.log + [BaseSchema]), files, db.named.value, budget);
            IsPrefix(after, files) && (budget >= |files| ==> after.log == [BaseSchema] + Effects(files))
  {
    var d := db.(tablesExist := true, log := db.log + [BaseSchema]);
    NothingNamedYet(db);
    BaseIsPrefix(d, files);
    ApplyExtends(d, files, 0, budget);
  }

  lemma LaterBoot(db: Db, files: seq<string>, budget: nat)
    requires Faithful(db) && IsPrefix(db, files) && db.tablesExist && Sorted(files)
    ensures var after := Apply(db, files, db.named.value, budget);
            IsPrefix(after, files) && (budget >= |files| ==> after.log == [BaseSchema] + Effects(files))
  {
    var k :| 0 <= k <= |files| && LogIs(db, files, k);
    ApplyExtends(db, files, k, budget);
  }

  /** A startup extends a prefix of the sorted list to a longer one, to all of it if it is not cut. */
  lemma BootExtendsPrefix(db: Db, files: seq<string>, budget: nat)
    requires Faithful(db) && IsPrefix(db, files) && Sorted(files)
    ensures IsPrefix(Boot(db, files, budget), files)
    ensures budget >= |files| + 2 ==> Boot(db, files, budget).log == [BaseSchema] + Effects(files)
  {
    if budget > 0 {
      var d1 := if db.named.Some? then db else db.(named := Some({}));
      if db.tablesExist {
        LaterBoot(db, files, budget - 1);
      } else if budget > 1 {
        FirstBoot(d1, files, budget - 2);
      }
    }
  }

  /** New names sort after the old ones. */
  predicate Extends(older: seq<string>, newer: seq<string>) { older <= newer }

  lemma PrefixOfExtension(db: Db, older: seq<string>, newer: seq<string>)
    requires IsPrefix(db, older) && Extends(older, newer)
    ensures IsPrefix(db, newer)
  {
    if db.log != [] {
      var k :| 0 <= k <= |older| && LogIs(db, older, k);
      assert newer[..k] == older[..k];
      assert LogIs(db, newer, k);
    }
  }

  // ---------------------------------------------------------------- any number of startups

  /** A startup: the release's sorted migration files and how far it got. */
  datatype Start = Start(files: seq<string>, budget: nat)

  function After(starts: seq<Start>): Db {
    if starts == [] then EMPTY
    else Boot(After(starts[..|starts| - 1]), starts[|starts| - 1].files, starts[|starts| - 1].budget)
  }

  /** Every release's list is sorted and extends the one before it. */
  predicate Releases(starts: seq<Start>) {
    && (forall k :: 0 <= k < |starts| ==> Sorted(starts[k].files))
    && forall k :: 0 <= k < |starts| - 1 ==> Extends(starts[k].files, starts[k + 1].files)
  }

  lemma {:induction false} RestartsAreFaithful(starts: seq<Start>)
    requires forall k :: 0 <= k < |starts| ==> Sorted(starts[k].files)
    ensures Faithful(After(starts))
  {
    if starts == [] {
    } else {
      var n := |starts| - 1;
      RestartsAreFaithful(starts[..n]);
      BootKeepsFaithful(After(starts[..n]), starts[n].files, starts[n].budget);
    }
  }

  /** However often startup crashes: what took effect is a prefix of the latest sorted list, each once. */
  lemma {:induction false} RestartsKeepPrefix(starts: seq<Start>)
    requires Releases(starts) && starts != []
    ensures Faithful(After(starts)) && IsPrefix(After(starts), starts[|starts| - 1].files)
    decreases |starts|, 1
  {
    var n := |starts| - 1;
    RestartsAreFaithful(starts);
    StartsFromPrefix(starts);
    BootExtendsPrefix(After(starts[..n]), starts[n].files, starts[n].budget);
  }

  lemma {:induction false} StartsFromPrefix(starts: seq<Start>)
    requires Releases(starts) && starts != []
    ensures var before := After(starts[..|starts| - 1]);
            Faithful(before) && IsPrefix(before, starts[|starts| - 1].files)
    decreases |starts|, 0
  {
    var n := |starts| - 1;
    RestartsAreFaithful(starts[..n]);
    if n > 0 {
      RestartsKeepPrefix(starts[..n]);
      assert Extends(starts[n - 1].files, starts[n - 1 + 1].files);
      PrefixOfExtension(After(starts[..n]), starts[n - 1].files, starts[n].files);
    }
  }

  lemma FullLogNamesAll(db: Db, files: seq<string>)
    requires Faithful(db) && db.log == [BaseSchema] + Effects(files)
    ensures Finished(db, files)
  {
  }

  lemma EmptyIsFaithful(files: seq<string>)
    ensures Faithful(EMPTY) && IsPrefix(EMPTY, files)
  {
  }

  /** A last startup that is not cut leaves what one uninterrupted startup on an empty database leaves. */
  lemma RestartsEqualOneRun(starts: seq<Start>)
    requires Releases(starts) && starts != []
    requires starts[|starts| - 1].budget >= |starts[|starts| - 1].files| + 2
    ensures var files := starts[|starts| - 1].files;
            && After(starts) == Boot(EMPTY, files, |files| + 2)
            && Finished(After(starts), files)
  {
    var n := |starts| - 1;
    var files := starts[n].files;
    RestartsAreFaithful(starts);
    StartsFromPrefix(starts);
    BootExtendsPrefix(After(starts[..n]), files, starts[n].budget);
    EmptyIsFaithful(files);
    BootExtendsPrefix(EMPTY, files, |files| + 2);
    FullLogNamesAll(After(starts), files);
    BootKeepsFaithful(EMPTY, files, |files| + 2);
    FullLogNamesAll(Boot(EMPTY, files, |files| + 2), files);
    LogDetermines(After(starts), Boot(EMPTY, files, |files| + 2));
  }

  /** Once the names are recorded, the log says what the database is. */
  lemma LogDetermines(a: Db, b: Db)
    requires Faithful(a) && Faithful(b) && a.named.Some? && b.named.Some? && a.log == b.log
    ensures a == b
  {
    assert forall x :: x in a.named.value <==> x in b.named.value;
    assert a.named.value == b.named.value;
  }

  function Reached(budget: nat, n: nat): nat { if budget < n + 2 then if budget < 2 then 0 else budget - 2 else n }

  /** A first startup cut anywhere: each action that came before the cut took effect, one migration at a time. */
  lemma CutLeaves(files: seq<string>, budget: nat)
    requires Sorted(files)
    ensures var after := Boot(EMPTY, files, budget);
            && (after.named.Some? <==> budget >= 1) && (after.tablesExist <==> budget >= 2)
            && after.log == if budget < 2 then [] else [BaseSchema] + Effects(files[..Reached(budget, |files|)])
  {
    if budget >= 2 {
      var based := Db(true, Some({}), [] + [BaseSchema]);
      BaseIsPrefix(based, files);
      assert files[0..] == files;
      ApplyContinues(based, files, 0, 0, {}, budget - 2);
      ApplyKeepsTables(based, files, {}, budget - 2);
    }
  }

  lemma {:induction false} ApplyKeepsTables(db: Db, files: seq<string>, applied: set<string>, budget: nat)
    requires db.named.Some? && db.tablesExist
    ensures Apply(db, files, applied, budget).named.Some? && Apply(db, files, applied, budget).tablesExist
    decreases |files|
  {
    if files == [] {
    } else if files[0] in applied {
      ApplyKeepsTables(db, files[1..], applied, budget);
    } else if budget > 0 {
      ApplyKeepsTables(db.(named := Some(db.named.value + {files[0]}), log := db.log + [Migration(files[0])]),
                       files[1..], applied, budget - 1);
    }
  }

  // ---------------------------------------------------------------- names that sort earlier

  /** The files still to be applied, in order. */
  function Missing(files: seq<string>, applied: set<string>): seq<string> {
    if files == [] then []
    else if files[0] in applied then Missing(files[1..], applied)
    else [files[0]] + Missing(files[1..], applied)
  }

  lemma {:induction false} ApplyAppendsMissing(db: Db, files: seq<string>, applied: set<string>, budget: nat)
    requires db.named.Some? && budget >= |files|
    ensures Apply(db, files, applied, budget).log == db.log + Effects(Missing(files, applied))
    decreases |files|
  {
    if files == [] {
      assert db.log + Effects([]) == db.log;
    } else if files[0] in applied {
      ApplyAppendsMissing(db, files[1..], applied, budget);
    } else {
      var next := db.(named := Some(db.named.value + {files[0]}), log := db.log + [Migration(files[0])]);
      ApplyAppendsMissing(next, files[1..], applied, budget - 1);
      var m := Missing(files[1..], applied);
      assert Effects([files[0]] + m) == [Migration(files[0])] + Effects(m);
    }
  }

  /** Without the assumption on names: a full startup ends like a fresh one exactly when the log was a prefix. */
  lemma FreshOrderExactly(db: Db, files: seq<string>)
    requires Faithful(db) && db.tablesExist && Sorted(files)
    ensures Boot(db, files, |files| + 2).log == Boot(EMPTY, files, |files| + 2).log <==> IsPrefix(db, files)
  {
    var full := [BaseSchema] + Effects(files);
    RestartsAreFaithful([]);
    BootExtendsPrefix(EMPTY, files, |files| + 2);
    if IsPrefix(db, files) {
      BootExtendsPrefix(db, files, |files| + 2);
    }
    if Boot(db, files, |files| + 2).log == full {
      BootKeepsFaithful(db, files, |files| + 2);
      var n := |db.log|;
      assert db.log == full[..n];
      assert full[..n] == [BaseSchema] + Effects(files[..n - 1]);
      assert LogIs(db, files, n - 1);
    }
  }

  /** Release one brings "b", release two "a" and "b": the upgraded database applied them the other way round. */
  lemma EarlierNameComesLate()
    ensures var upgraded := After([Start(["b"], 3), Start(["a", "b"], 4)]);
            && upgraded.log == [BaseSchema, Migration("b"), Migration("a")]
            && Boot(EMPTY, ["a", "b"], 4).log == [BaseSchema, Migration("a"), Migration("b")]
  {
    var first := Start(["b"], 3);
    var starts := [first, Start(["a", "b"], 4)];
    assert starts[..1] == [first] && [first][..0] == [];
    assert ["b"][1..] == [] && ["a", "b"][1..] == ["b"];
    assert After([first]) == Boot(EMPTY, ["b"], 3);
    var before := After([first]);
    var based := Db(true, Some({}), [] + [BaseSchema]);
    var applied := based.(named := Some({} + {"b"}), log := based.log + [Migration("b")]);
    assert before == Apply(based, ["b"], {}, 1) == Apply(applied, ["b"][1..], {}, 0) == applied;
    assert After(starts) == Boot(before, ["a", "b"], 4);
    assert Apply(before, ["a", "b"], {"b"}, 3).log == before.log + [Migration("a")];
  }
}
