/**
  The loops of SyncProviderModels (pkg/comdb/provider.go) on the working copy that a
  transaction holds: normalising names, inserting missing ones, and replacing stale models
  one after the other, where a replacement may itself turn out to be stale.
 */
module ProviderSync {
  import opened Wrappers
  import opened ModelTables
  import Runes

  datatype Change = Change(user: nat, modelId: nat, modelName: string)

  datatype SyncResult = SyncResult(
    synced: nat, removed: nat, removedNames: seq<string>, clearedUsers: nat, affected: seq<Change>,
    models: set<(nat, string)>)

  datatype SyncError = BadProvider | BadKind | NoReplacement

  function Elements<T>(q: seq<T>): set<T> {
    set i | 0 <= i < |q| :: q[i]
  }

  method NormalizeNames(names: seq<string>) returns (out: seq<string>)
    ensures Elements(out) == Wanted(names)
  {
    out := [];
    for i := 0 to |names|
      invariant Elements(out) == Wanted(names[..i])
    {
      var trimmed := Runes.Trim(names[i]);
      ghost var before := out;
      if trimmed != "" {
        out := out + [trimmed];
        assert forall j :: 0 <= j < |before| ==> out[j] == before[j];
        assert Elements(out) == Elements(before) + {trimmed} by {
          assert out[|before|] == trimmed;
        }
      }
      WantedSnoc(names[..i], names[i]);
      assert names[..i + 1] == names[..i] + [names[i]];
    }
    assert names[..|names|] == names;
  }

  lemma WantedSnoc(names: seq<string>, name: string)
    ensures Wanted(names + [name]) == Wanted(names) + if Runes.Trim(name) == "" then {} else {Runes.Trim(name)}
  {
    var all := names + [name];
    assert forall i :: 0 <= i < |names| ==> all[i] == names[i];
    forall w | w in Wanted(names) ensures w in Wanted(all) {
      var i :| 0 <= i < |names| && Runes.Trim(names[i]) != "" && Runes.Trim(names[i]) == w;
      assert all[i] == names[i];
    }
    assert all[|names|] == name;
  }

  // ---------- inserting ----------

  /** The catalog with a row for every name in done, as the insertion loop leaves it. */
  ghost predicate Grown(before: map<nat, CatalogRow>, provider: nat, done: set<string>, after: map<nat, CatalogRow>) {
    && (forall id :: id in before ==> id in after && after[id] == before[id])
    && (forall id :: id in after && id !in before ==>
          after[id] == CatalogRow(provider, false, after[id].name) && after[id].name in done
          && !HasName(before, provider, after[id].name))
    && (forall i, j | i in after && j in after && i !in before && j !in before ::
          after[i].name == after[j].name ==> i == j)
    && (forall w :: w in done ==> HasName(after, provider, w))
  }

  lemma GrownInsert(before: map<nat, CatalogRow>, provider: nat, done: set<string>, after: map<nat, CatalogRow>,
                    id: nat, name: string)
    requires Grown(before, provider, done, after) && id !in after && !HasName(after, provider, name)
    ensures Grown(before, provider, done + {name}, after[id := CatalogRow(provider, false, name)])
  {
    var grown := after[id := CatalogRow(provider, false, name)];
    forall w | w in done + {name} ensures HasName(grown, provider, w) {
      if w == name {
        assert grown[id].provider == provider && grown[id].name == w;
      } else {
        var k :| k in after && after[k].provider == provider && after[k].name == w;
        assert k in grown && grown[k] == after[k];
      }
    }
    forall k | k in before ensures before[k].provider != provider || before[k].name != name {
      assert k in after && after[k] == before[k];
    }
  }

  lemma GrownFound(before: map<nat, CatalogRow>, provider: nat, done: set<string>, after: map<nat, CatalogRow>,
                   name: string)
    requires Grown(before, provider, done, after) && HasName(after, provider, name)
    ensures Grown(before, provider, done + {name}, after)
  {
  }

  /** n is beyond every id in use, as the next AUTO_INCREMENT value is. */
  ghost predicate Below<T>(rows: map<nat, T>, n: nat) {
    forall id :: id in rows ==> id < n
  }

  method InsertMissing(before: map<nat, CatalogRow>, provider: nat, names: seq<string>, nextId: nat)
    returns (after: map<nat, CatalogRow>, synced: nat, lastId: nat)
    requires Below(before, nextId)
    ensures Grown(before, provider, Elements(names), after)
    ensures synced == |Elements(names)|
    ensures lastId >= nextId && Below(after, lastId)
  {
    after, synced, lastId := before, 0, nextId;
    var seenNames: set<string> := {};
    for i := 0 to |names|
      invariant seenNames == Elements(names[..i]) && synced == |seenNames|
      invariant Grown(before, provider, seenNames, after)
      invariant lastId >= nextId && Below(after, lastId)
    {
      var name := names[i];
      ElementsSnoc(names, i);
      if name in seenNames {
        assert seenNames + {name} == seenNames;
        continue;
      }
      if HasName(after, provider, name) {
        GrownFound(before, provider, seenNames, after, name);
      } else {
        GrownInsert(before, provider, seenNames, after, lastId, name);
        after := after[lastId := CatalogRow(provider, false, name)];
        lastId := lastId + 1;
      }
      seenNames := seenNames + {name};
      synced := synced + 1;
    }
    assert names[..|names|] == names;
  }

  lemma ElementsSnoc<T>(q: seq<T>, i: nat)
    requires i < |q|
    ensures Elements(q[..i + 1]) == Elements(q[..i]) + {q[i]}
  {
    assert forall j :: 0 <= j < i ==> q[..i + 1][j] == q[..i][j];
    assert q[..i + 1][i] == q[i];
    forall x | x in Elements(q[..i]) ensures x in Elements(q[..i + 1]) {
      var j :| 0 <= j < i && q[..i][j] == x;
      assert q[..i + 1][j] == x;
    }
  }

  // ---------- stale models ----------

  ghost predicate Distinct<T(!new)>(q: seq<T>) {
    forall i, j | 0 <= i < |q| && 0 <= j < |q| :: q[i] == q[j] ==> i == j
  }

  /** The elements of a set in some order, as an unordered query returns them. */
  method Rows(s: set<nat>) returns (q: seq<nat>)
    ensures Elements(q) == s && Distinct(q)
  {
    q := [];
    var left := s;
    while left != {}
      invariant Elements(q) + left == s && Elements(q) !! left && Distinct(q)
      decreases left
    {
      var x :| x in left;
      ghost var longer := q + [x];
      ElementsSnoc(longer, |q|);
      assert longer[..|q|] == q && longer[..|q| + 1] == longer;
      assert forall i :: 0 <= i < |q| ==> q[i] in Elements(q);
      q := q + [x];
      left := left - {x};
    }
  }

  /** The row of t0 refers to one of the models in done. */
  predicate UsesIn(t0: Tables, provider: nat, kind: ModelKind, done: set<nat>, g: nat) {
    g in t0.gpts && t0.gpts[g].provider == provider && Column(t0.gpts[g], kind).Some?
    && Column(t0.gpts[g], kind).value in done
  }

  predicate DefaultIn(catalog: map<nat, CatalogRow>, provider: nat, d: nat) {
    d in catalog && catalog[d].provider == provider && catalog[d].isDefault
  }

  /**
    The state of the replacement loop: the models in done are deleted, every row that used
    one of them uses a default model that is still there, and no other row has changed.
   */
  ghost predicate Progress(t0: Tables, full: map<nat, CatalogRow>, provider: nat, kind: ModelKind, done: set<nat>,
                           catalog: map<nat, CatalogRow>, gpts: map<nat, GptRow>) {
    && catalog == full - done
    && gpts.Keys == t0.gpts.Keys
    && (forall g :: g in gpts ==> RowProgress(t0, provider, kind, done, catalog, g, gpts[g]))
  }

  ghost predicate RowProgress(t0: Tables, provider: nat, kind: ModelKind, done: set<nat>,
                              catalog: map<nat, CatalogRow>, g: nat, row: GptRow)
    requires g in t0.gpts
  {
    if UsesIn(t0, provider, kind, done, g) then
      exists d :: DefaultIn(catalog, provider, d) && row == WithColumn(t0.gpts[g], kind, d).(assistant := "")
    else row == t0.gpts[g]
  }

  predicate PointsAt(row: GptRow, provider: nat, kind: ModelKind, x: nat) {
    row.provider == provider && Column(row, kind) == Some(x)
  }

  /** UPDATE user_gpt SET column = d, AssistantId = '' WHERE Provider = provider AND column = x. */
  function Reassign(gpts: map<nat, GptRow>, provider: nat, kind: ModelKind, x: nat, d: nat): map<nat, GptRow> {
    map g | g in gpts ::
      if PointsAt(gpts[g], provider, kind, x) then WithColumn(gpts[g], kind, d).(assistant := "") else gpts[g]
  }

  /** A replacement that is itself stale does no harm: its rows move on when its turn comes. */
  lemma RowReassigned(t0: Tables, provider: nat, kind: ModelKind, done: set<nat>,
                      catalog: map<nat, CatalogRow>, g: nat, row: GptRow, x: nat, d: nat)
    requires g in t0.gpts && RowProgress(t0, provider, kind, done, catalog, g, row)
    requires x !in done && x in catalog && d != x && DefaultIn(catalog, provider, d)
    ensures RowProgress(t0, provider, kind, done + {x}, catalog - {x}, g,
              if PointsAt(row, provider, kind, x) then WithColumn(row, kind, d).(assistant := "") else row)
  {
    assert DefaultIn(catalog - {x}, provider, d);
    if UsesIn(t0, provider, kind, done, g) {
      var e :| DefaultIn(catalog, provider, e) && row == WithColumn(t0.gpts[g], kind, e).(assistant := "");
      if e != x {
        assert DefaultIn(catalog - {x}, provider, e);
      }
    }
  }

  lemma ProgressReassign(t0: Tables, full: map<nat, CatalogRow>, provider: nat, kind: ModelKind, done: set<nat>,
                         catalog: map<nat, CatalogRow>, gpts: map<nat, GptRow>, x: nat, d: nat)
    requires Progress(t0, full, provider, kind, done, catalog, gpts)
    requires x !in done && x in catalog && d != x && DefaultIn(catalog, provider, d)
    ensures Progress(t0, full, provider, kind, done + {x}, catalog - {x}, Reassign(gpts, provider, kind, x, d))
  {
    var moved := Reassign(gpts, provider, kind, x, d);
    forall g | g in moved ensures RowProgress(t0, provider, kind, done + {x}, catalog - {x}, g, moved[g]) {
      RowReassigned(t0, provider, kind, done, catalog, g, gpts[g], x, d);
    }
    assert catalog - {x} == full - (done + {x});
  }

  lemma ProgressUnused(t0: Tables, full: map<nat, CatalogRow>, provider: nat, kind: ModelKind, done: set<nat>,
                       catalog: map<nat, CatalogRow>, gpts: map<nat, GptRow>, x: nat)
    requires Progress(t0, full, provider, kind, done, catalog, gpts)
    requires x !in done && x in catalog
    requires forall g :: g in gpts ==> !PointsAt(gpts[g], provider, kind, x)
    ensures Progress(t0, full, provider, kind, done + {x}, catalog - {x}, gpts)
  {
    forall g | g in gpts ensures RowProgress(t0, provider, kind, done + {x}, catalog - {x}, g, gpts[g]) {
      assert RowProgress(t0, provider, kind, done, catalog, g, gpts[g]);
      if UsesIn(t0, provider, kind, done, g) {
        var e :| DefaultIn(catalog, provider, e) && gpts[g] == WithColumn(t0.gpts[g], kind, e).(assistant := "");
        assert PointsAt(gpts[g], provider, kind, e) && DefaultIn(catalog - {x}, provider, e);
      }
    }
    assert catalog - {x} == full - (done + {x});
  }

  /** The users linked to a row that used one of the models in done. */
  function UsersOf(t0: Tables, provider: nat, kind: ModelKind, done: set<nat>): set<nat> {
    set l | l in t0.links && UsesIn(t0, provider, kind, done, t0.links[l].model) :: t0.links[l].user
  }

  function UserSet(affected: seq<Change>): set<nat> {
    set i | 0 <= i < |affected| :: affected[i].user
  }

  /** The links whose row refers to x now: the users that the deletion of x affects. */
  function Affected(links: map<nat, Link>, gpts: map<nat, GptRow>, provider: nat, kind: ModelKind, x: nat): set<nat> {
    set l | l in links && links[l].model in gpts && PointsAt(gpts[links[l].model], provider, kind, x)
  }

  function UsersBehind(links: map<nat, Link>, ids: set<nat>): set<nat> {
    set l | l in ids && l in links :: links[l].user
  }

  method ChangesFor(links: map<nat, Link>, hit: seq<nat>, x: nat, name: string) returns (out: seq<Change>)
    requires Elements(hit) <= links.Keys
    ensures |out| == |hit|
    ensures UserSet(out) == UsersBehind(links, Elements(hit))
    ensures forall i | 0 <= i < |out| :: hit[i] in links && out[i] == Change(links[hit[i]].user, x, name)
  {
    out := [];
    for i := 0 to |hit|
      invariant |out| == i
      invariant forall j | 0 <= j < |out| :: hit[j] in links && out[j] == Change(links[hit[j]].user, x, name)
      invariant UserSet(out) == UsersBehind(links, Elements(hit[..i]))
    {
      ElementsSnoc(hit, i);
      assert hit[i] in Elements(hit);
      var change := Change(links[hit[i]].user, x, name);
      UserSetAppend(out, [change]);
      assert UserSet([change]) == {change.user} by {
        assert [change][0].user == change.user;
      }
      assert UsersBehind(links, {hit[i]}) == {change.user};
      out := out + [change];
    }
    assert hit[..|hit|] == hit;
  }

  lemma UserSetAppend(a: seq<Change>, b: seq<Change>)
    ensures UserSet(a + b) == UserSet(a) + UserSet(b)
  {
    var all := a + b;
    forall u | u in UserSet(a) ensures u in UserSet(all) {
      var i :| 0 <= i < |a| && a[i].user == u;
      assert all[i].user == u;
    }
    forall u | u in UserSet(b) ensures u in UserSet(all) {
      var i :| 0 <= i < |b| && b[i].user == u;
      assert all[|a| + i].user == u;
    }
    forall u | u in UserSet(all) ensures u in UserSet(a) + UserSet(b) {
      var i :| 0 <= i < |all| && all[i].user == u;
      assert i < |a| ==> a[i].user == u;
      assert i >= |a| ==> b[i - |a|].user == u;
    }
  }

  /** A row that points at x now pointed at x, or at an earlier stale model, to begin with. */
  lemma RowUses(t0: Tables, provider: nat, kind: ModelKind, done: set<nat>,
                catalog: map<nat, CatalogRow>, g: nat, row: GptRow, x: nat)
    requires g in t0.gpts && RowProgress(t0, provider, kind, done, catalog, g, row)
    ensures UsesIn(t0, provider, kind, done + {x}, g) <==>
            UsesIn(t0, provider, kind, done, g) || PointsAt(row, provider, kind, x)
  {
  }

  lemma UsersStep(t0: Tables, full: map<nat, CatalogRow>, provider: nat, kind: ModelKind, done: set<nat>,
                  catalog: map<nat, CatalogRow>, gpts: map<nat, GptRow>, x: nat)
    requires LinksSound(t0.links, t0.gpts)
    requires Progress(t0, full, provider, kind, done, catalog, gpts)
    ensures UsersOf(t0, provider, kind, done + {x}) ==
            UsersOf(t0, provider, kind, done) + UsersBehind(t0.links, Affected(t0.links, gpts, provider, kind, x))
  {
    forall l | l in t0.links
      ensures UsesIn(t0, provider, kind, done + {x}, t0.links[l].model) <==>
              UsesIn(t0, provider, kind, done, t0.links[l].model) || l in Affected(t0.links, gpts, provider, kind, x)
    {
      var g := t0.links[l].model;
      RowUses(t0, provider, kind, done, catalog, g, gpts[g], x);
    }
  }

  /** The replacement loop between two stale models. */
  ghost predicate LoopState(t0: Tables, full: map<nat, CatalogRow>, provider: nat, kind: ModelKind, done: set<nat>,
                            catalog: map<nat, CatalogRow>, gpts: map<nat, GptRow>, affected: seq<Change>) {
    Progress(t0, full, provider, kind, done, catalog, gpts) && UserSet(affected) == UsersOf(t0, provider, kind, done)
  }

  /**
    A report about a link: its row used a removed model, the report names the link's user and a
    removed model, and that model is the one the row used to begin with or a default it was moved
    to in between.
   */
  predicate GoodReport(t0: Tables, full: map<nat, CatalogRow>, provider: nat, kind: ModelKind, done: set<nat>,
                       l: nat, c: Change) {
    && l in t0.links && UsesIn(t0, provider, kind, done, t0.links[l].model)
    && c.modelId in done && c.modelId in full
    && c == Change(t0.links[l].user, c.modelId, Runes.Trim(full[c.modelId].name))
    && (Column(t0.gpts[t0.links[l].model], kind) == Some(c.modelId) || DefaultIn(full, provider, c.modelId))
  }

  /** No link is reported twice about one model. */
  predicate NoRepeat(who: seq<nat>, affected: seq<Change>)
    requires |who| == |affected|
  {
    forall i, j | 0 <= i < j < |who| :: who[i] != who[j] || affected[i].modelId != affected[j].modelId
  }

  /** The link is reported about the model its row used to begin with. */
  ghost predicate Reported(t0: Tables, kind: ModelKind, who: seq<nat>, affected: seq<Change>, l: nat)
    requires |who| == |affected|
  {
    l in t0.links && t0.links[l].model in t0.gpts
    && exists i :: 0 <= i < |who| && who[i] == l
                   && Column(t0.gpts[t0.links[l].model], kind) == Some(affected[i].modelId)
  }

  /**
    who gives the link behind each report. Exactly the links whose row used a removed model are
    reported: each about that model, never twice about one model, and otherwise only about removed
    defaults.
   */
  ghost predicate Reports(t0: Tables, full: map<nat, CatalogRow>, provider: nat, kind: ModelKind, done: set<nat>,
                          who: seq<nat>, affected: seq<Change>) {
    && |who| == |affected|
    && (forall i | 0 <= i < |who| :: GoodReport(t0, full, provider, kind, done, who[i], affected[i]))
    && NoRepeat(who, affected)
    && (forall l | l in t0.links && UsesIn(t0, provider, kind, done, t0.links[l].model) ::
          Reported(t0, kind, who, affected, l))
  }

  /** What the query for a stale model x yields, as links and as changes. */
  ghost predicate Round(t0: Tables, full: map<nat, CatalogRow>, gpts: map<nat, GptRow>, provider: nat, kind: ModelKind,
                        x: nat, hit: seq<nat>, more: seq<Change>) {
    && x in full
    && Distinct(hit) && Elements(hit) == Affected(t0.links, gpts, provider, kind, x)
    && |more| == |hit|
    && forall i | 0 <= i < |hit| ::
         hit[i] in t0.links && more[i] == Change(t0.links[hit[i]].user, x, Runes.Trim(full[x].name))
  }

  lemma HitIsGood(t0: Tables, full: map<nat, CatalogRow>, provider: nat, kind: ModelKind, done: set<nat>,
                  catalog: map<nat, CatalogRow>, gpts: map<nat, GptRow>, x: nat, l: nat, c: Change)
    requires Progress(t0, full, provider, kind, done, catalog, gpts) && x in full
    requires l in t0.links && l in Affected(t0.links, gpts, provider, kind, x)
    requires c == Change(t0.links[l].user, x, Runes.Trim(full[x].name))
    ensures GoodReport(t0, full, provider, kind, done + {x}, l, c)
  {
    var g := t0.links[l].model;
    RowUses(t0, provider, kind, done, catalog, g, gpts[g], x);
    assert RowProgress(t0, provider, kind, done, catalog, g, gpts[g]);
  }

  lemma NoRepeatStep(who: seq<nat>, affected: seq<Change>, hit: seq<nat>, more: seq<Change>, x: nat)
    requires |who| == |affected| && NoRepeat(who, affected) && |hit| == |more| && Distinct(hit)
    requires forall i | 0 <= i < |affected| :: affected[i].modelId != x
    requires forall i | 0 <= i < |more| :: more[i].modelId == x
    ensures NoRepeat(who + hit, affected + more)
  {
  }

  lemma ReportedStep(t0: Tables, provider: nat, kind: ModelKind, done: set<nat>, catalog: map<nat, CatalogRow>,
                     gpts: map<nat, GptRow>, x: nat, who: seq<nat>, affected: seq<Change>, hit: seq<nat>,
                     more: seq<Change>, l: nat)
    requires |who| == |affected| && |hit| == |more|
    requires l in t0.links && t0.links[l].model in gpts && t0.links[l].model in t0.gpts
    requires RowProgress(t0, provider, kind, done, catalog, t0.links[l].model, gpts[t0.links[l].model])
    requires UsesIn(t0, provider, kind, done + {x}, t0.links[l].model)
    requires UsesIn(t0, provider, kind, done, t0.links[l].model) ==> Reported(t0, kind, who, affected, l)
    requires Elements(hit) == Affected(t0.links, gpts, provider, kind, x)
    requires forall i | 0 <= i < |more| :: more[i].modelId == x
    ensures Reported(t0, kind, who + hit, affected + more, l)
  {
    var all, changes := who + hit, affected + more;
    if UsesIn(t0, provider, kind, done, t0.links[l].model) {
      var i :| 0 <= i < |who| && who[i] == l
               && Column(t0.gpts[t0.links[l].model], kind) == Some(affected[i].modelId);
      assert all[i] == l && changes[i] == affected[i];
    } else {
      assert l in Elements(hit);
      var i :| 0 <= i < |hit| && hit[i] == l;
      assert all[|who| + i] == l && changes[|who| + i] == more[i];
    }
  }

  lemma ReportsStep(t0: Tables, full: map<nat, CatalogRow>, provider: nat, kind: ModelKind, done: set<nat>,
                    catalog: map<nat, CatalogRow>, gpts: map<nat, GptRow>, x: nat, who: seq<nat>,
                    affected: seq<Change>, hit: seq<nat>, more: seq<Change>)
    requires LinksSound(t0.links, t0.gpts)
    requires Progress(t0, full, provider, kind, done, catalog, gpts) && x !in done
    requires Reports(t0, full, provider, kind, done, who, affected)
    requires Round(t0, full, gpts, provider, kind, x, hit, more)
    ensures Reports(t0, full, provider, kind, done + {x}, who + hit, affected + more)
  {
    var all, changes := who + hit, affected + more;
    forall i | 0 <= i < |all| ensures GoodReport(t0, full, provider, kind, done + {x}, all[i], changes[i]) {
      if i < |who| {
        assert GoodReport(t0, full, provider, kind, done, who[i], affected[i]);
      } else {
        assert hit[i - |who|] in Elements(hit);
        HitIsGood(t0, full, provider, kind, done, catalog, gpts, x, hit[i - |who|], more[i - |who|]);
      }
    }
    forall i | 0 <= i < |affected| ensures affected[i].modelId != x {
      assert GoodReport(t0, full, provider, kind, done, who[i], affected[i]);
    }
    NoRepeatStep(who, affected, hit, more, x);
    forall l | l in t0.links && UsesIn(t0, provider, kind, done + {x}, t0.links[l].model)
      ensures Reported(t0, kind, all, changes, l)
    {
      ReportedStep(t0, provider, kind, done, catalog, gpts, x, who, affected, hit, more, l);
    }
  }

  lemma SomeRowUses(t0: Tables, full: map<nat, CatalogRow>, provider: nat, kind: ModelKind, done: set<nat>,
                    catalog: map<nat, CatalogRow>, gpts: map<nat, GptRow>, x: nat, l: nat)
    requires Progress(t0, full, provider, kind, done, catalog, gpts)
    requires l in Affected(t0.links, gpts, provider, kind, x)
    ensures exists g :: UsesIn(t0, provider, kind, done + {x}, g)
  {
    var g := t0.links[l].model;
    RowUses(t0, provider, kind, done, catalog, g, gpts[g], x);
  }

  /** One round: the model x goes, and the rows that use it move to another default model. */
  method ReplaceOne(t0: Tables, ghost full: map<nat, CatalogRow>, provider: nat, kind: ModelKind, ghost done: set<nat>,
                    catalog: map<nat, CatalogRow>, gpts: map<nat, GptRow>, affected: seq<Change>, x: nat,
                    ghost who: seq<nat>)
    returns (ok: bool, gpts': map<nat, GptRow>, affected': seq<Change>, ghost who': seq<nat>)
    requires LinksSound(t0.links, t0.gpts) && NoOrphans(t0.links, t0.gpts)
    requires LoopState(t0, full, provider, kind, done, catalog, gpts, affected)
    requires x in catalog && x !in done && Reports(t0, full, provider, kind, done, who, affected)
    ensures ok ==> LoopState(t0, full, provider, kind, done + {x}, catalog - {x}, gpts', affected')
    ensures ok ==> Reports(t0, full, provider, kind, done + {x}, who', affected')
    ensures !ok ==> (exists g :: UsesIn(t0, provider, kind, done + {x}, g))
                    && forall d :: DefaultIn(catalog, provider, d) ==> d == x
  {
    var hit := Rows(Affected(t0.links, gpts, provider, kind, x));
    var more := ChangesFor(t0.links, hit, x, Runes.Trim(catalog[x].name));
    UsersStep(t0, full, provider, kind, done, catalog, gpts, x);
    UserSetAppend(affected, more);
    ReportsStep(t0, full, provider, kind, done, catalog, gpts, x, who, affected, hit, more);
    if |hit| == 0 {
      assert affected + more == affected && who + hit == who;
      NobodyPoints(t0, gpts, provider, kind, x);
      ProgressUnused(t0, full, provider, kind, done, catalog, gpts, x);
      return true, gpts, affected, who;
    }
    if d :| d in catalog && d != x && DefaultIn(catalog, provider, d) {
      ProgressReassign(t0, full, provider, kind, done, catalog, gpts, x, d);
      return true, Reassign(gpts, provider, kind, x, d), affected + more, who + hit;
    }
    assert hit[0] in Elements(hit);
    SomeRowUses(t0, full, provider, kind, done, catalog, gpts, x, hit[0]);
    return false, gpts, affected, who;
  }

  function TrimmedNames(rows: map<nat, CatalogRow>, ids: seq<nat>): seq<string> {
    if ids == [] then []
    else
      var init, x := ids[..|ids| - 1], ids[|ids| - 1];
      TrimmedNames(rows, init) + if x in rows then [Runes.Trim(rows[x].name)] else []
  }

  /**
    The replacement loop. It fails exactly when some row uses a stale model and no default
    model survives, in whatever order the stale models come and whichever default is picked.
   */
  method ReplaceStale(t0: Tables, full: map<nat, CatalogRow>, provider: nat, kind: ModelKind, stale: seq<nat>)
    returns (ok: bool, catalog: map<nat, CatalogRow>, gpts: map<nat, GptRow>, removed: nat, removedNames: seq<string>,
             clearedUsers: nat, affected: seq<Change>, ghost who: seq<nat>)
    requires LinksSound(t0.links, t0.gpts) && NoOrphans(t0.links, t0.gpts)
    requires Distinct(stale) && Elements(stale) <= full.Keys
    ensures !ok ==> (exists g :: UsesIn(t0, provider, kind, Elements(stale), g))
                    && forall d :: !DefaultIn(full - Elements(stale), provider, d)
    ensures ok ==> LoopState(t0, full, provider, kind, Elements(stale), catalog, gpts, affected)
    ensures ok ==> removedNames == TrimmedNames(full, stale)
    ensures ok ==> Reports(t0, full, provider, kind, Elements(stale), who, affected)
    ensures ok ==> removed == |stale| && clearedUsers == |affected|
  {
    hide LoopState, Reports;
    NothingReplaced(t0, full, provider, kind, stale);
    ok, catalog, gpts := true, full, t0.gpts;
    removed, removedNames, clearedUsers, affected, who := 0, [], 0, [], [];
    for i := 0 to |stale|
      invariant ok && catalog == full - Elements(stale[..i])
      invariant LoopState(t0, full, provider, kind, Elements(stale[..i]), catalog, gpts, affected)
      invariant Reports(t0, full, provider, kind, Elements(stale[..i]), who, affected)
      invariant removed == i && clearedUsers == |affected|
      invariant removedNames == TrimmedNames(full, stale[..i])
    {
      var x := stale[i];
      ElementsSnoc(stale, i);
      StillThere(full, stale, i);
      assert stale[..i + 1] == stale[..i] + [x];
      removed, removedNames := removed + 1, removedNames + [Runes.Trim(catalog[x].name)];
      var reported := |affected|;
      ok, gpts, affected, who :=
        ReplaceOne(t0, full, provider, kind, Elements(stale[..i]), catalog, gpts, affected, x, who);
      clearedUsers := clearedUsers + (|affected| - reported);
      if !ok {
        NoDefaultLeft(t0, full, provider, kind, stale, i, catalog);
        return;
      }
      catalog := catalog - {x};
      assert catalog == full - Elements(stale[..i + 1]);
    }
    assert stale[..|stale|] == stale;
  }

  lemma NothingReplaced(t0: Tables, full: map<nat, CatalogRow>, provider: nat, kind: ModelKind, stale: seq<nat>)
    ensures LoopState(t0, full, provider, kind, Elements(stale[..0]), full, t0.gpts, [])
    ensures Reports(t0, full, provider, kind, Elements(stale[..0]), [], [])
    ensures full - Elements(stale[..0]) == full
  {
    assert Elements(stale[..0]) == {};
  }

  lemma StillThere(full: map<nat, CatalogRow>, stale: seq<nat>, i: nat)
    requires Distinct(stale) && Elements(stale) <= full.Keys && i < |stale|
    ensures stale[i] in Elements(stale) && stale[i] !in Elements(stale[..i])
    ensures stale[i] in full - Elements(stale[..i])
  {
    assert forall j :: 0 <= j < i ==> stale[..i][j] == stale[j];
  }

  lemma NobodyPoints(t0: Tables, gpts: map<nat, GptRow>, provider: nat, kind: ModelKind, x: nat)
    requires NoOrphans(t0.links, t0.gpts) && gpts.Keys == t0.gpts.Keys
    requires Affected(t0.links, gpts, provider, kind, x) == {}
    ensures forall g :: g in gpts ==> !PointsAt(gpts[g], provider, kind, x)
  {
    forall g | g in gpts ensures !PointsAt(gpts[g], provider, kind, x) {
      assert Linked(t0.links, g);
      var l :| l in t0.links && t0.links[l].model == g;
      assert l !in Affected(t0.links, gpts, provider, kind, x);
    }
  }

  lemma NoDefaultLeft(t0: Tables, full: map<nat, CatalogRow>, provider: nat, kind: ModelKind, stale: seq<nat>, i: nat,
                      catalog: map<nat, CatalogRow>)
    requires i < |stale| && catalog == full - Elements(stale[..i])
    requires exists g :: UsesIn(t0, provider, kind, Elements(stale[..i]) + {stale[i]}, g)
    requires forall d :: DefaultIn(catalog, provider, d) ==> d == stale[i]
    ensures exists h :: UsesIn(t0, provider, kind, Elements(stale), h)
    ensures forall d :: !DefaultIn(full - Elements(stale), provider, d)
  {
    forall y | y in Elements(stale[..i]) ensures y in Elements(stale) {
      var j :| 0 <= j < i && stale[..i][j] == y;
      assert stale[j] == y;
    }
    assert stale[i] in Elements(stale);
    var g :| UsesIn(t0, provider, kind, Elements(stale[..i]) + {stale[i]}, g);
    assert UsesIn(t0, provider, kind, Elements(stale), g);
    forall d ensures !DefaultIn(full - Elements(stale), provider, d) {
      if d in catalog && d !in Elements(stale) {
        assert d != stale[i] && !DefaultIn(catalog, provider, d);
      }
    }
  }

  // ---------- the whole synchronisation ----------

  ghost function StaleSet(full: map<nat, CatalogRow>, provider: nat, wanted: set<string>): set<nat> {
    set id | id in full && Stale(full, provider, wanted, id)
  }

  /** New rows are never stale, so what is stale is known before anything is inserted. */
  lemma StaleBefore(before: map<nat, CatalogRow>, provider: nat, names: seq<string>, full: map<nat, CatalogRow>,
                    id: nat)
    requires Grown(before, provider, Wanted(names), full)
    ensures Stale(full, provider, Wanted(names), id) <==> Stale(before, provider, Wanted(names), id)
  {
    if id in full && id !in before {
      WantedTrimmed(names, full[id].name);
    }
  }

  lemma CatalogOutcome(before: map<nat, CatalogRow>, provider: nat, names: seq<string>, full: map<nat, CatalogRow>,
                       after: map<nat, CatalogRow>)
    requires Grown(before, provider, Wanted(names), full)
    requires after == full - StaleSet(full, provider, Wanted(names))
    ensures CatalogSynced(before, provider, Wanted(names), after)
  {
    var wanted := Wanted(names);
    forall id | id in full ensures id in after <==> !Stale(before, provider, wanted, id) {
      StaleBefore(before, provider, names, full, id);
    }
    forall w | w in wanted ensures HasName(after, provider, w) {
      var id :| id in full && full[id].provider == provider && full[id].name == w;
      WantedTrimmed(names, w);
      assert id in after && after[id] == full[id];
    }
  }

  /** Before and after the insertions the same rows use stale models and the same defaults survive. */
  lemma SameCondition(t: Tables, provider: nat, kind: ModelKind, names: seq<string>, full: map<nat, CatalogRow>)
    requires Grown(Catalog(t, kind), provider, Wanted(names), full)
    ensures var stale := StaleSet(full, provider, Wanted(names));
            && (forall g :: UsesIn(t, provider, kind, stale, g) <==> UsesStale(t, provider, kind, Wanted(names), g))
            && (forall d ::
                  DefaultIn(full - stale, provider, d) <==> SurvivingDefault(t, provider, kind, Wanted(names), d))
  {
    var stale := StaleSet(full, provider, Wanted(names));
    forall id ensures id in stale <==> Stale(Catalog(t, kind), provider, Wanted(names), id) {
      StaleBefore(Catalog(t, kind), provider, names, full, id);
    }
  }

  lemma RowsOutcome(t: Tables, provider: nat, kind: ModelKind, names: seq<string>, full: map<nat, CatalogRow>,
                    catalog: map<nat, CatalogRow>, gpts: map<nat, GptRow>)
    requires Grown(Catalog(t, kind), provider, Wanted(names), full)
    requires Progress(t, full, provider, kind, StaleSet(full, provider, Wanted(names)), catalog, gpts)
    ensures RowsReassigned(t, provider, kind, Wanted(names), gpts)
  {
    SameCondition(t, provider, kind, names, full);
    var stale := StaleSet(full, provider, Wanted(names));
    forall g | g in gpts && UsesStale(t, provider, kind, Wanted(names), g)
      ensures exists d :: SurvivingDefault(t, provider, kind, Wanted(names), d)
                && gpts[g] == WithColumn(t.gpts[g], kind, d).(assistant := "")
    {
      assert RowProgress(t, provider, kind, stale, catalog, g, gpts[g]);
      var d :| DefaultIn(catalog, provider, d) && gpts[g] == WithColumn(t.gpts[g], kind, d).(assistant := "");
      assert SurvivingDefault(t, provider, kind, Wanted(names), d);
    }
    forall g | g in gpts && !UsesStale(t, provider, kind, Wanted(names), g) ensures gpts[g] == t.gpts[g] {
      assert RowProgress(t, provider, kind, stale, catalog, g, gpts[g]);
    }
  }

  /** The tables with one catalog and the model rows replaced. */
  function WithCatalog(t: Tables, kind: ModelKind, catalog: map<nat, CatalogRow>, gpts: map<nat, GptRow>): Tables {
    if kind.General? then t.(general := catalog, gpts := gpts) else t.(realtime := catalog, gpts := gpts)
  }

  /** The names of a provider as the closing query reads them. */
  function Names(catalog: map<nat, CatalogRow>, provider: nat): set<(nat, string)> {
    set id | id in catalog && catalog[id].provider == provider :: (id, Runes.Trim(catalog[id].name))
  }

  /**
    The report names each removed model once and counts them, and it has the reports about the
    links that used one of them, and counts these too.
   */
  ghost predicate Removes(t: Tables, provider: nat, kind: ModelKind, stale: set<nat>, result: SyncResult) {
    && (exists ids: seq<nat> ::
          Distinct(ids) && Elements(ids) == stale && result.removedNames == TrimmedNames(Catalog(t, kind), ids))
    && result.removed == |result.removedNames| == |stale|
    && (exists who :: Reports(t, Catalog(t, kind), provider, kind, stale, who, result.affected))
    && result.clearedUsers == |result.affected|
  }

  /** Stale models are old ones, so the report can be read off the catalog as it was. */
  lemma RemovesOld(t: Tables, provider: nat, kind: ModelKind, names: seq<string>, full: map<nat, CatalogRow>,
                   ids: seq<nat>, who: seq<nat>, result: SyncResult)
    requires Grown(Catalog(t, kind), provider, Wanted(names), full)
    requires Distinct(ids) && Elements(ids) == StaleSet(full, provider, Wanted(names))
    requires result.removedNames == TrimmedNames(full, ids) && result.removed == |ids|
    requires Reports(t, full, provider, kind, Elements(ids), who, result.affected)
    requires result.clearedUsers == |result.affected|
    ensures Removes(t, provider, kind, StaleSet(Catalog(t, kind), provider, Wanted(names)), result)
  {
    var before := Catalog(t, kind);
    SameStaleSet(before, provider, names, full);
    forall x | x in Elements(ids) ensures x in before && x in full && before[x] == full[x] {
      assert Stale(before, provider, Wanted(names), x);
    }
    assert forall i | 0 <= i < |ids| :: ids[i] in Elements(ids);
    SameNames(before, full, ids);
    RowsCount(ids);
    ReportsOld(t, before, full, provider, kind, Elements(ids), who, result.affected);
  }

  lemma ReportsOld(t: Tables, before: map<nat, CatalogRow>, full: map<nat, CatalogRow>, provider: nat, kind: ModelKind,
                   stale: set<nat>, who: seq<nat>, affected: seq<Change>)
    requires forall x | x in stale :: x in before && x in full && before[x] == full[x]
    requires Reports(t, full, provider, kind, stale, who, affected)
    ensures Reports(t, before, provider, kind, stale, who, affected)
  {
    forall i | 0 <= i < |who| ensures GoodReport(t, before, provider, kind, stale, who[i], affected[i]) {
      assert GoodReport(t, full, provider, kind, stale, who[i], affected[i]);
    }
  }

  lemma {:induction false} RowsCount(q: seq<nat>)
    requires Distinct(q)
    ensures |Elements(q)| == |q|
  {
    if q != [] {
      var init := q[..|q| - 1];
      assert forall i :: 0 <= i < |init| ==> init[i] == q[i] && init[i] != q[|init|];
      RowsCount(init);
      ElementsSnoc(q, |init|);
      assert q[..|init| + 1] == q;
    }
  }

  lemma {:induction false} SameNames(before: map<nat, CatalogRow>, full: map<nat, CatalogRow>, ids: seq<nat>)
    requires forall i | 0 <= i < |ids| :: ids[i] in before && ids[i] in full && before[ids[i]] == full[ids[i]]
    ensures TrimmedNames(before, ids) == TrimmedNames(full, ids) && |TrimmedNames(full, ids)| == |ids|
  {
    if ids != [] {
      SameNames(before, full, ids[..|ids| - 1]);
    }
  }

  /**
    The transaction on its working copy. It succeeds exactly when every row that uses a stale
    model can be moved, which a caller can tell beforehand, and then reports what it did.
   */
  method SyncTransaction(t: Tables, provider: nat, kind: ModelKind, names: seq<string>, nextId: nat)
    returns (ok: bool, t': Tables, result: SyncResult, lastId: nat)
    requires LinksSound(t.links, t.gpts) && NoOrphans(t.links, t.gpts)
    requires Below(Catalog(t, kind), nextId)
    ensures ok <==> CanSync(t, provider, kind, Wanted(names))
    ensures ok ==> Synced(t, provider, kind, names, t')
    ensures ok ==> lastId >= nextId && Below(Catalog(t', kind), lastId)
    ensures ok ==> result.synced == |Wanted(names)|
                   && Removes(t, provider, kind, StaleSet(Catalog(t, kind), provider, Wanted(names)), result)
                   && UserSet(result.affected)
                      == UsersOf(t, provider, kind, StaleSet(Catalog(t, kind), provider, Wanted(names)))
                   && result.models == Names(Catalog(t', kind), provider)
  {
    hide Grown, Progress, Reports, TrimmedNames, Synced, CanSync, Removes;
    t' := t;
    var normalized := NormalizeNames(names);
    var full, synced, last := InsertMissing(Catalog(t, kind), provider, normalized, nextId);
    lastId := last;
    ghost var stale := StaleSet(full, provider, Wanted(names));
    var wanted := Elements(normalized);
    var staleModels := Rows(set id | id in full && Stale(full, provider, wanted, id));
    var catalog, gpts, removed, removedNames, clearedUsers, affected;
    ghost var who;
    ok, catalog, gpts, removed, removedNames, clearedUsers, affected, who :=
      ReplaceStale(t, full, provider, kind, staleModels);
    result := SyncResult(synced, removed, removedNames, clearedUsers, affected, Names(catalog, provider));
    if ok {
      SyncSucceeds(t, provider, kind, names, full, catalog, gpts);
      RemovesOld(t, provider, kind, names, full, staleModels, who, result);
      t' := WithCatalog(t, kind, catalog, gpts);
    } else {
      SyncFails(t, provider, kind, names, full);
    }
  }

  lemma SyncSucceeds(t: Tables, provider: nat, kind: ModelKind, names: seq<string>, full: map<nat, CatalogRow>,
                     catalog: map<nat, CatalogRow>, gpts: map<nat, GptRow>)
    requires Grown(Catalog(t, kind), provider, Wanted(names), full)
    requires Progress(t, full, provider, kind, StaleSet(full, provider, Wanted(names)), catalog, gpts)
    ensures CanSync(t, provider, kind, Wanted(names))
    ensures Synced(t, provider, kind, names, WithCatalog(t, kind, catalog, gpts))
    ensures StaleSet(full, provider, Wanted(names)) == StaleSet(Catalog(t, kind), provider, Wanted(names))
    ensures catalog.Keys <= full.Keys
  {
    CatalogOutcome(Catalog(t, kind), provider, names, full, catalog);
    RowsOutcome(t, provider, kind, names, full, catalog, gpts);
    MovedSomewhere(t, provider, kind, names, gpts);
    SameStaleSet(Catalog(t, kind), provider, names, full);
  }

  lemma SyncFails(t: Tables, provider: nat, kind: ModelKind, names: seq<string>, full: map<nat, CatalogRow>)
    requires Grown(Catalog(t, kind), provider, Wanted(names), full)
    requires exists g :: UsesIn(t, provider, kind, StaleSet(full, provider, Wanted(names)), g)
    requires forall d :: !DefaultIn(full - StaleSet(full, provider, Wanted(names)), provider, d)
    ensures !CanSync(t, provider, kind, Wanted(names))
  {
    SameCondition(t, provider, kind, names, full);
  }

  lemma SameStaleSet(before: map<nat, CatalogRow>, provider: nat, names: seq<string>, full: map<nat, CatalogRow>)
    requires Grown(before, provider, Wanted(names), full)
    ensures StaleSet(full, provider, Wanted(names)) == StaleSet(before, provider, Wanted(names))
  {
    forall id ensures Stale(full, provider, Wanted(names), id) <==> Stale(before, provider, Wanted(names), id) {
      StaleBefore(before, provider, names, full, id);
    }
  }

  /** If the rows could be moved, then somewhere to move them to was there. */
  lemma MovedSomewhere(t: Tables, provider: nat, kind: ModelKind, names: seq<string>, gpts: map<nat, GptRow>)
    requires RowsReassigned(t, provider, kind, Wanted(names), gpts)
    ensures CanSync(t, provider, kind, Wanted(names))
  {
    if g :| UsesStale(t, provider, kind, Wanted(names), g) {
      assert g in gpts;
      var d :| SurvivingDefault(t, provider, kind, Wanted(names), d)
        && gpts[g] == WithColumn(t.gpts[g], kind, d).(assistant := "");
    }
  }
}
