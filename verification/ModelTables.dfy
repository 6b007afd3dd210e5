/**
  The tables behind pkg/comdb/model.go and pkg/comdb/provider.go as values, the invariant
  they keep, and what each committed transaction does to them.
 */
module ModelTables {
  import opened Wrappers
  import Runes

  datatype ModelKind = General | Realtime

  /** A row of gpt_models or realtime_models. */
  datatype CatalogRow = CatalogRow(provider: nat, isDefault: bool, name: string)

  /** A row of user_gpt; payload stands for its Data and Ids columns. */
  datatype GptRow = GptRow(
    name: string, provider: nat, general: nat, realtime: Option<nat>, assistant: string, payload: string)

  /** A row of user_models. */
  datatype Link = Link(user: nat, model: nat, provider: nat, active: bool, createdAt: nat)

  datatype Tables = Tables(
    links: map<nat, Link>,
    gpts: map<nat, GptRow>,
    general: map<nat, CatalogRow>,
    realtime: map<nat, CatalogRow>)

  predicate ValidProvider(p: nat) { 1 <= p <= 4 }

  function Catalog(t: Tables, kind: ModelKind): map<nat, CatalogRow> {
    if kind.General? then t.general else t.realtime
  }

  /** The catalog reference of a row in the column that belongs to the catalog. */
  function Column(g: GptRow, kind: ModelKind): Option<nat> {
    if kind.General? then Some(g.general) else g.realtime
  }

  function WithColumn(g: GptRow, kind: ModelKind, id: nat): GptRow {
    if kind.General? then g.(general := id) else g.(realtime := Some(id))
  }

  // ---------- the invariant ----------

  ghost predicate HasModel(links: map<nat, Link>, user: nat) {
    exists l :: l in links && links[l].user == user
  }

  ghost predicate HasActive(links: map<nat, Link>, user: nat) {
    exists l :: l in links && links[l].user == user && links[l].active
  }

  ghost predicate Linked(links: map<nat, Link>, model: nat) {
    exists l :: l in links && links[l].model == model
  }

  ghost predicate LinksSound(links: map<nat, Link>, gpts: map<nat, GptRow>) {
    forall l :: l in links ==>
      links[l].user != 0 && links[l].model in gpts && links[l].provider == gpts[links[l].model].provider
  }

  ghost predicate OneModelPerProvider(links: map<nat, Link>) {
    forall a, b | a in links && b in links ::
      links[a].user == links[b].user && links[a].provider == links[b].provider ==> a == b
  }

  ghost predicate AtMostOneActive(links: map<nat, Link>) {
    forall a, b | a in links && b in links ::
      links[a].user == links[b].user && links[a].active && links[b].active ==> a == b
  }

  ghost predicate SomeActive(links: map<nat, Link>) {
    forall l {:trigger HasActive(links, links[l].user)} :: l in links ==> HasActive(links, links[l].user)
  }

  ghost predicate NoOrphans(links: map<nat, Link>, gpts: map<nat, GptRow>) {
    forall g {:trigger Linked(links, g)} :: g in gpts ==> Linked(links, g)
  }

  predicate RefersTo(catalog: map<nat, CatalogRow>, provider: nat, id: nat) {
    id in catalog && catalog[id].provider == provider
  }

  /** The catalog references of a row lead to rows of the row's own provider. */
  predicate FromCatalog(t: Tables, row: GptRow) {
    RefersTo(t.general, row.provider, row.general)
    && (row.realtime.Some? ==> RefersTo(t.realtime, row.provider, row.realtime.value))
  }

  ghost predicate NoDangling(t: Tables) {
    forall g {:trigger FromCatalog(t, t.gpts[g])} :: g in t.gpts ==> FromCatalog(t, t.gpts[g])
  }

  /**
    One active model per user who has any, one model per user and provider, no link without
    a model, no model without a link, and no reference to a catalog row that is gone.
   */
  ghost predicate Inv(t: Tables) {
    && LinksSound(t.links, t.gpts)
    && OneModelPerProvider(t.links)
    && AtMostOneActive(t.links)
    && SomeActive(t.links)
    && NoOrphans(t.links, t.gpts)
    && NoDangling(t)
  }

  // ---------- saving ----------

  /** The link that carries the user's model of a provider. */
  predicate Carries(t: Tables, l: nat, user: nat, provider: nat) {
    l in t.links && t.links[l].user == user && t.links[l].provider == provider && t.links[l].model in t.gpts
  }

  /** The row of the model that a link carries is overwritten; its provider stays. */
  ghost predicate SavedOver(t: Tables, user: nat, row: GptRow, l: nat, t': Tables) {
    && Carries(t, l, user, row.provider)
    && t' == t.(gpts := t.gpts[t.links[l].model := row.(provider := t.gpts[t.links[l].model].provider)])
  }

  /** A row and a link with fresh ids are inserted; the link is active if it is the user's first. */
  ghost predicate SavedNew(t: Tables, user: nat, row: GptRow, l: nat, m: nat, now: nat, t': Tables) {
    && (forall k :: !Carries(t, k, user, row.provider))
    && l !in t.links && m !in t.gpts && (forall k :: k in t.links ==> t.links[k].model != m)
    && t' == t.(gpts := t.gpts[m := row],
                links := t.links[l := Link(user, m, row.provider, !HasModel(t.links, user), now)])
  }

  ghost predicate Saved(t: Tables, user: nat, row: GptRow, t': Tables) {
    || (exists l :: SavedOver(t, user, row, l, t'))
    || (exists l: nat, m: nat, now: nat :: SavedNew(t, user, row, l, m, now, t'))
  }

  lemma SavedKeepsInv(t: Tables, user: nat, row: GptRow, t': Tables)
    requires Inv(t) && user != 0 && FromCatalog(t, row) && Saved(t, user, row, t')
    ensures Inv(t')
  {
    if l :| SavedOver(t, user, row, l, t') {
      NoOrphansOver(t.links, t.gpts, t'.gpts);
      SavedOverSound(t, user, row, l, t');
    } else {
      var l: nat, m: nat, now: nat :| SavedNew(t, user, row, l, m, now, t');
      InsertedSound(t, user, row, l, m, now, t');
      InsertedUnique(t, user, row, l, m, now, t');
      InsertedSomeActive(t, user, row, l, m, now, t');
      InsertedOneActive(t, user, row, l, m, now, t');
      InsertedNoDangling(t, user, row, l, m, now, t');
    }
  }

  lemma SavedOverSound(t: Tables, user: nat, row: GptRow, l: nat, t': Tables)
    requires LinksSound(t.links, t.gpts) && NoDangling(t) && FromCatalog(t, row) && SavedOver(t, user, row, l, t')
    ensures LinksSound(t'.links, t'.gpts) && NoDangling(t')
  {
    forall g | g in t'.gpts ensures FromCatalog(t', t'.gpts[g]) {
      if g in t.gpts {
        assert FromCatalog(t, t.gpts[g]);
      }
    }
  }

  lemma InsertedNoDangling(t: Tables, user: nat, row: GptRow, l: nat, m: nat, now: nat, t': Tables)
    requires NoDangling(t) && FromCatalog(t, row) && SavedNew(t, user, row, l, m, now, t')
    ensures NoDangling(t')
  {
    forall g | g in t'.gpts ensures FromCatalog(t', t'.gpts[g]) {
      if g in t.gpts {
        assert FromCatalog(t, t.gpts[g]);
      }
    }
  }

  /** Models stay linked when their links keep their model, whatever else changes. */
  lemma NoOrphansOver(links: map<nat, Link>, gpts: map<nat, GptRow>, gpts': map<nat, GptRow>)
    requires NoOrphans(links, gpts) && gpts'.Keys <= gpts.Keys
    ensures NoOrphans(links, gpts')
  {
  }

  lemma InsertedSound(t: Tables, user: nat, row: GptRow, l: nat, m: nat, now: nat, t': Tables)
    requires LinksSound(t.links, t.gpts) && NoOrphans(t.links, t.gpts)
    requires user != 0 && SavedNew(t, user, row, l, m, now, t')
    ensures LinksSound(t'.links, t'.gpts) && NoOrphans(t'.links, t'.gpts)
  {
    forall g | g in t'.gpts ensures Linked(t'.links, g) {
      if g == m {
        assert l in t'.links && t'.links[l].model == m;
      } else {
        assert Linked(t.links, g);
        var k :| k in t.links && t.links[k].model == g;
        assert k in t'.links && t'.links[k].model == g;
      }
    }
  }

  lemma InsertedUnique(t: Tables, user: nat, row: GptRow, l: nat, m: nat, now: nat, t': Tables)
    requires LinksSound(t.links, t.gpts) && OneModelPerProvider(t.links)
    requires SavedNew(t, user, row, l, m, now, t')
    ensures OneModelPerProvider(t'.links)
  {
    forall k | k in t.links ensures t.links[k].user == user ==> t.links[k].provider != row.provider {
      assert !Carries(t, k, user, row.provider);
    }
  }

  lemma InsertedSomeActive(t: Tables, user: nat, row: GptRow, l: nat, m: nat, now: nat, t': Tables)
    requires SomeActive(t.links) && SavedNew(t, user, row, l, m, now, t')
    ensures SomeActive(t'.links)
  {
    forall k | k in t'.links ensures HasActive(t'.links, t'.links[k].user) {
      if j :| j in t.links && t.links[j].user == t'.links[k].user {
        assert HasActive(t.links, t.links[j].user);
        var a :| a in t.links && t.links[a].user == t.links[j].user && t.links[a].active;
        assert a in t'.links && t'.links[a] == t.links[a];
      } else {
        assert k == l && !HasModel(t.links, user);
        assert t'.links[l].active;
      }
    }
  }

  lemma InsertedOneActive(t: Tables, user: nat, row: GptRow, l: nat, m: nat, now: nat, t': Tables)
    requires AtMostOneActive(t.links) && SavedNew(t, user, row, l, m, now, t')
    ensures AtMostOneActive(t'.links)
  {
    forall k | k in t.links && t.links[k].user == user ensures !t'.links[l].active {
      assert HasModel(t.links, user);
    }
  }

  // ---------- activating ----------

  /** The links with the active flag of the user set on one link and cleared on all others. */
  function Activate(links: map<nat, Link>, user: nat, l: nat): map<nat, Link> {
    map k | k in links :: if links[k].user == user then links[k].(active := k == l) else links[k]
  }

  ghost predicate Activated(t: Tables, user: nat, l: nat, t': Tables) {
    l in t.links && t.links[l].user == user && t' == t.(links := Activate(t.links, user, l))
  }

  lemma ActivatedKeepsInv(t: Tables, user: nat, l: nat, t': Tables)
    requires Inv(t) && Activated(t, user, l, t')
    ensures Inv(t')
  {
    ActivateSomeActive(t.links, user, l);
    ActivateUnique(t.links, user, l);
    ActivateSameModels(t.links, t.gpts, user, l);
    FewerRows(t, t');
  }

  lemma ActivateSameModels(links: map<nat, Link>, gpts: map<nat, GptRow>, user: nat, l: nat)
    requires LinksSound(links, gpts) && NoOrphans(links, gpts)
    ensures LinksSound(Activate(links, user, l), gpts) && NoOrphans(Activate(links, user, l), gpts)
  {
    SameModels(links, Activate(links, user, l), gpts);
  }

  lemma ActivateUnique(links: map<nat, Link>, user: nat, l: nat)
    requires OneModelPerProvider(links) && AtMostOneActive(links)
    ensures OneModelPerProvider(Activate(links, user, l)) && AtMostOneActive(Activate(links, user, l))
  {
  }

  lemma ActivateSomeActive(links: map<nat, Link>, user: nat, l: nat)
    requires SomeActive(links) && l in links && links[l].user == user
    ensures SomeActive(Activate(links, user, l))
  {
    var after := Activate(links, user, l);
    forall k | k in after ensures HasActive(after, after[k].user) {
      if links[k].user == user {
        assert l in after && after[l].active && after[l].user == user;
      } else {
        assert HasActive(links, links[k].user);
        var a :| a in links && links[a].user == links[k].user && links[a].active;
        assert a in after && after[a] == links[a];
      }
    }
  }

  lemma SameModels(links: map<nat, Link>, links': map<nat, Link>, gpts: map<nat, GptRow>)
    requires links.Keys == links'.Keys
    requires forall k :: k in links ==> links'[k] == links[k].(active := links'[k].active)
    requires LinksSound(links, gpts) && NoOrphans(links, gpts)
    ensures LinksSound(links', gpts) && NoOrphans(links', gpts)
  {
    forall g | g in gpts ensures Linked(links', g) {
      assert Linked(links, g);
      var k :| k in links && links[k].model == g;
      assert k in links' && links'[k].model == g;
    }
  }

  // ---------- removing ----------

  /** The links of a user to a model. */
  function LinksTo(links: map<nat, Link>, user: nat, model: nat): set<nat> {
    set l | l in links && links[l].user == user && links[l].model == model
  }

  /** The models that are left when the links of a user to a model are gone. */
  ghost function ModelsLeft(t: Tables, user: nat, model: nat): map<nat, GptRow> {
    if Linked(t.links - LinksTo(t.links, user, model), model) then t.gpts else t.gpts - {model}
  }

  /** The active flag is handed on to some other link of the user if it was lost. */
  ghost predicate HandedOn(links: map<nat, Link>, gone: set<nat>, user: nat, links': map<nat, Link>) {
    var left := links - gone;
    if (exists l :: l in gone && l in links && links[l].active) && HasModel(left, user) then
      exists l :: l in left && left[l].user == user && links' == left[l := left[l].(active := true)]
    else links' == left
  }

  ghost predicate Removed(t: Tables, user: nat, model: nat, t': Tables) {
    && LinksTo(t.links, user, model) != {}
    && HandedOn(t.links, LinksTo(t.links, user, model), user, t'.links)
    && t' == t.(gpts := ModelsLeft(t, user, model), links := t'.links)
  }

  lemma RemovedKeepsInv(t: Tables, user: nat, model: nat, t': Tables)
    requires Inv(t) && Removed(t, user, model, t')
    ensures Inv(t')
  {
    RemovedSound(t, user, model, t');
    HandedOnKeeps(t.links, LinksTo(t.links, user, model), user, t'.links);
    FewerRows(t, t');
  }

  lemma RemovedSound(t: Tables, user: nat, model: nat, t': Tables)
    requires LinksSound(t.links, t.gpts) && NoOrphans(t.links, t.gpts) && Removed(t, user, model, t')
    ensures LinksSound(t'.links, t'.gpts) && NoOrphans(t'.links, t'.gpts)
  {
    var gone := LinksTo(t.links, user, model);
    UnlinkedSound(t, user, model);
    HandedOnSameModels(t.links, gone, user, t'.links);
    SameModels(t.links - gone, t'.links, t'.gpts);
  }

  lemma HandedOnKeeps(links: map<nat, Link>, gone: set<nat>, user: nat, links': map<nat, Link>)
    requires OneModelPerProvider(links) && AtMostOneActive(links) && SomeActive(links)
    requires AllOf(links, gone, user) && HandedOn(links, gone, user, links')
    ensures OneModelPerProvider(links') && AtMostOneActive(links') && SomeActive(links')
  {
    HandedOnUnique(links, gone, user, links');
    HandedOnOneActive(links, gone, user, links');
    HandedOnSomeActive(links, gone, user, links');
  }

  lemma FewerRows(t: Tables, t': Tables)
    requires NoDangling(t) && t'.general == t.general && t'.realtime == t.realtime
    requires forall g :: g in t'.gpts ==> g in t.gpts && t'.gpts[g] == t.gpts[g]
    ensures NoDangling(t')
  {
    forall g | g in t'.gpts ensures FromCatalog(t', t'.gpts[g]) {
      if g in t.gpts {
        assert FromCatalog(t, t.gpts[g]);
      }
    }
  }

  lemma UnlinkedSound(t: Tables, user: nat, model: nat)
    requires LinksSound(t.links, t.gpts) && NoOrphans(t.links, t.gpts)
    ensures var left := t.links - LinksTo(t.links, user, model);
            LinksSound(left, ModelsLeft(t, user, model)) && NoOrphans(left, ModelsLeft(t, user, model))
  {
    var left := t.links - LinksTo(t.links, user, model);
    forall g | g in ModelsLeft(t, user, model) ensures Linked(left, g) {
      if g != model {
        assert Linked(t.links, g);
        var k :| k in t.links && t.links[k].model == g;
        assert k in left && left[k].model == g;
      }
    }
    forall l | l in left ensures left[l].model in ModelsLeft(t, user, model) {
      if left[l].model == model {
        assert Linked(left, model);
      }
    }
  }

  lemma HandedOnSameModels(links: map<nat, Link>, gone: set<nat>, user: nat, links': map<nat, Link>)
    requires HandedOn(links, gone, user, links')
    ensures var left := links - gone;
            left.Keys == links'.Keys && forall k :: k in left ==> links'[k] == left[k].(active := links'[k].active)
  {
  }

  lemma HandedOnUnique(links: map<nat, Link>, gone: set<nat>, user: nat, links': map<nat, Link>)
    requires OneModelPerProvider(links) && HandedOn(links, gone, user, links')
    ensures OneModelPerProvider(links')
  {
    HandedOnSameModels(links, gone, user, links');
    forall a, b |
        a in links' && b in links'
        && links'[a].user == links'[b].user && links'[a].provider == links'[b].provider
      ensures a == b
    {
      assert a in links && b in links;
    }
  }

  ghost predicate AllOf(links: map<nat, Link>, gone: set<nat>, user: nat) {
    forall l :: l in gone ==> l in links && links[l].user == user
  }

  lemma HandedOnOneActive(links: map<nat, Link>, gone: set<nat>, user: nat, links': map<nat, Link>)
    requires AtMostOneActive(links) && AllOf(links, gone, user) && HandedOn(links, gone, user, links')
    ensures AtMostOneActive(links')
  {
    var left := links - gone;
    if (exists l :: l in gone && l in links && links[l].active) && HasModel(left, user) {
      var lost :| lost in gone && lost in links && links[lost].active;
      var heir :| heir in left && left[heir].user == user && links' == left[heir := left[heir].(active := true)];
      forall a | a in left && left[a].user == user ensures !left[a].active {
        assert a in links && lost in links && a != lost;
      }
    }
  }

  lemma HandedOnSomeActive(links: map<nat, Link>, gone: set<nat>, user: nat, links': map<nat, Link>)
    requires SomeActive(links) && AllOf(links, gone, user) && HandedOn(links, gone, user, links')
    ensures SomeActive(links')
  {
    var left := links - gone;
    forall k | k in links' ensures HasActive(links', links'[k].user) {
      assert k in left && k in links && links'[k].user == links[k].user;
      assert HasActive(links, links[k].user);
      var a :| a in links && links[a].user == links[k].user && links[a].active;
      if a in gone {
        assert left[k].user == user && HasModel(left, user);
        var heir :| heir in left && left[heir].user == user && links' == left[heir := left[heir].(active := true)];
        assert heir in links' && links'[heir].active && links'[heir].user == user;
      } else {
        assert a in left && a in links' && links'[a].active && links'[a].user == links[k].user;
      }
    }
  }

  // ---------- catalog synchronisation ----------

  /** The distinct trimmed non-blank names of the input. */
  function Wanted(names: seq<string>): set<string> {
    set i | 0 <= i < |names| && Runes.Trim(names[i]) != "" :: Runes.Trim(names[i])
  }

  /** A catalog row of the provider whose name is no longer offered. */
  predicate Stale(catalog: map<nat, CatalogRow>, provider: nat, wanted: set<string>, id: nat) {
    id in catalog && catalog[id].provider == provider && Runes.Trim(catalog[id].name) !in wanted
  }

  /** A user_gpt row of the provider whose catalog reference goes stale. */
  predicate UsesStale(t: Tables, provider: nat, kind: ModelKind, wanted: set<string>, g: nat) {
    g in t.gpts && t.gpts[g].provider == provider && Column(t.gpts[g], kind).Some?
    && Stale(Catalog(t, kind), provider, wanted, Column(t.gpts[g], kind).value)
  }

  /** A default model of the provider that stays. */
  predicate SurvivingDefault(t: Tables, provider: nat, kind: ModelKind, wanted: set<string>, id: nat) {
    var catalog := Catalog(t, kind);
    id in catalog && catalog[id].provider == provider && catalog[id].isDefault && !Stale(catalog, provider, wanted, id)
  }

  /** When a synchronisation can be carried out. */
  ghost predicate CanSync(t: Tables, provider: nat, kind: ModelKind, wanted: set<string>) {
    (exists g :: UsesStale(t, provider, kind, wanted, g)) ==>
      exists d :: SurvivingDefault(t, provider, kind, wanted, d)
  }

  /** Rows that survive are untouched; new rows are non-default, wanted, and one for each name that had none. */
  ghost predicate CatalogSynced(before: map<nat, CatalogRow>, provider: nat, wanted: set<string>,
                                after: map<nat, CatalogRow>) {
    && (forall id :: id in before ==>
          (id in after <==> !Stale(before, provider, wanted, id)) && (id in after ==> after[id] == before[id]))
    && (forall id :: id in after && id !in before ==>
          after[id] == CatalogRow(provider, false, after[id].name) && after[id].name in wanted
          && !HasName(before, provider, after[id].name))
    && (forall i, j ::
          i in after && j in after && i !in before && j !in before && after[i].name == after[j].name ==> i == j)
    && (forall w :: w in wanted ==> HasName(after, provider, w))
  }

  predicate HasName(catalog: map<nat, CatalogRow>, provider: nat, name: string) {
    exists id :: id in catalog && catalog[id].provider == provider && catalog[id].name == name
  }

  /** Rows that used a stale model now use a surviving default one; no other row moved. */
  ghost predicate RowsReassigned(t: Tables, provider: nat, kind: ModelKind, wanted: set<string>,
                                 gpts: map<nat, GptRow>) {
    && gpts.Keys == t.gpts.Keys
    && forall g :: g in gpts ==>
         if UsesStale(t, provider, kind, wanted, g) then
           exists d :: SurvivingDefault(t, provider, kind, wanted, d)
             && gpts[g] == WithColumn(t.gpts[g], kind, d).(assistant := "")
         else gpts[g] == t.gpts[g]
  }

  function Other(kind: ModelKind): ModelKind { if kind.General? then Realtime else General }

  ghost predicate Synced(t: Tables, provider: nat, kind: ModelKind, names: seq<string>, t': Tables) {
    var wanted := Wanted(names);
    && t'.links == t.links
    && Catalog(t', Other(kind)) == Catalog(t, Other(kind))
    && CatalogSynced(Catalog(t, kind), provider, wanted, Catalog(t', kind))
    && RowsReassigned(t, provider, kind, wanted, t'.gpts)
  }

  lemma WantedTrimmed(names: seq<string>, w: string)
    requires w in Wanted(names)
    ensures w != "" && Runes.Trim(w) == w
  {
    var i :| 0 <= i < |names| && Runes.Trim(names[i]) != "" && Runes.Trim(names[i]) == w;
    Runes.TrimIdempotent(names[i]);
  }

  /** After a synchronisation the provider's names, trimmed, are exactly the wanted ones. */
  lemma {:induction false} SyncedNames(before: map<nat, CatalogRow>, provider: nat, names: seq<string>,
                                       after: map<nat, CatalogRow>)
    requires CatalogSynced(before, provider, Wanted(names), after)
    ensures (set id | id in after && after[id].provider == provider :: Runes.Trim(after[id].name)) == Wanted(names)
    ensures (forall id :: id in before ==> Runes.Trim(before[id].name) == before[id].name) ==>
              (set id | id in after && after[id].provider == provider :: after[id].name) == Wanted(names)
  {
    forall id | id in after && after[id].provider == provider
      ensures Runes.Trim(after[id].name) in Wanted(names)
      ensures id !in before ==> Runes.Trim(after[id].name) == after[id].name
    {
      if id in before {
        assert !Stale(before, provider, Wanted(names), id);
      } else {
        WantedTrimmed(names, after[id].name);
      }
    }
    forall w | w in Wanted(names)
      ensures exists id :: id in after && after[id].provider == provider
                           && after[id].name == w && Runes.Trim(after[id].name) == w
    {
      WantedTrimmed(names, w);
      assert HasName(after, provider, w);
    }
  }

  /** No row is left pointing at a deleted model, in either catalog. */
  lemma SyncedNoDangling(t: Tables, provider: nat, kind: ModelKind, names: seq<string>, t': Tables)
    requires NoDangling(t) && Synced(t, provider, kind, names, t')
    ensures NoDangling(t')
  {
    forall g | g in t'.gpts ensures FromCatalog(t', t'.gpts[g]) {
      assert FromCatalog(t, t.gpts[g]);
      SyncedRow(t, provider, kind, names, t', g);
    }
  }

  lemma SyncedRow(t: Tables, provider: nat, kind: ModelKind, names: seq<string>, t': Tables, g: nat)
    requires Synced(t, provider, kind, names, t') && g in t'.gpts && g in t.gpts && FromCatalog(t, t.gpts[g])
    ensures FromCatalog(t', t'.gpts[g]) && t'.gpts[g].provider == t.gpts[g].provider
  {
    var wanted := Wanted(names);
    if UsesStale(t, provider, kind, wanted, g) {
      var d :| SurvivingDefault(t, provider, kind, wanted, d)
        && t'.gpts[g] == WithColumn(t.gpts[g], kind, d).(assistant := "");
      assert d in Catalog(t', kind);
    } else {
      var c := Column(t.gpts[g], kind);
      assert c.Some? ==> !Stale(Catalog(t, kind), provider, wanted, c.value);
      assert c.Some? ==> c.value in Catalog(t', kind);
    }
  }

  lemma SyncedKeepsInv(t: Tables, provider: nat, kind: ModelKind, names: seq<string>, t': Tables)
    requires Inv(t) && Synced(t, provider, kind, names, t')
    ensures Inv(t')
  {
    SyncedNoDangling(t, provider, kind, names, t');
    NoOrphansOver(t.links, t.gpts, t'.gpts);
    SyncedLinksSound(t, provider, kind, names, t');
  }

  lemma SyncedLinksSound(t: Tables, provider: nat, kind: ModelKind, names: seq<string>, t': Tables)
    requires LinksSound(t.links, t.gpts) && NoDangling(t) && Synced(t, provider, kind, names, t')
    ensures LinksSound(t'.links, t'.gpts)
  {
    forall l | l in t'.links
      ensures t'.links[l].model in t'.gpts && t'.links[l].provider == t'.gpts[t'.links[l].model].provider
    {
      var g := t'.links[l].model;
      assert g in t.gpts && FromCatalog(t, t.gpts[g]);
      SyncedRow(t, provider, kind, names, t', g);
    }
  }

  // ---------- the transactions, row by row ----------

  /**
    A save: the user ends up with a link to a row that holds what was saved, every old link is
    untouched, a new one is the user's and is active exactly if it is his first, and no row
    changes but the one of the user's link of that provider.
   */
  lemma SavedRows(t: Tables, user: nat, row: GptRow, t': Tables)
    requires LinksSound(t.links, t.gpts) && Saved(t, user, row, t')
    ensures exists l :: l in t'.links && t'.links[l].user == user && t'.links[l].provider == row.provider
                        && t'.links[l].model in t'.gpts && t'.gpts[t'.links[l].model] == row
    ensures forall k | k in t.links :: k in t'.links && t'.links[k] == t.links[k]
    ensures forall k | k in t'.links && k !in t.links ::
              && t'.links[k].user == user && t'.links[k].provider == row.provider
              && (t'.links[k].active <==> forall j | j in t.links :: t.links[j].user != user)
    ensures forall g | g in t.gpts :: g in t'.gpts
              && (t'.gpts[g] == t.gpts[g]
                  || exists l :: l in t.links && t.links[l].user == user && t.links[l].provider == row.provider
                                 && t.links[l].model == g)
    ensures t'.general == t.general && t'.realtime == t.realtime
  {
    if l :| SavedOver(t, user, row, l, t') {
      assert l in t'.links && t'.gpts[t'.links[l].model] == row;
    } else {
      var l: nat, m: nat, now: nat :| SavedNew(t, user, row, l, m, now, t');
      assert l in t'.links && t'.links[l].model == m && t'.gpts[m] == row;
    }
  }

  /** A switch: only active flags of the user change; his chosen link has it and no other of his does. */
  lemma ActivatedRows(t: Tables, user: nat, l: nat, t': Tables)
    requires Activated(t, user, l, t')
    ensures t'.links.Keys == t.links.Keys
    ensures forall k | k in t.links ::
              && t'.links[k] == t.links[k].(active := t'.links[k].active)
              && t'.links[k].active == if t.links[k].user == user then k == l else t.links[k].active
    ensures t'.gpts == t.gpts && t'.general == t.general && t'.realtime == t.realtime
  {
  }

  /**
    A removal: exactly the links of the user to the model go, the model goes exactly if no other
    user has it, no other row changes, and only the user's links may change their active flag.
   */
  lemma RemovedRows(t: Tables, user: nat, model: nat, t': Tables)
    requires LinksSound(t.links, t.gpts) && Removed(t, user, model, t')
    ensures forall l :: l in t'.links <==> l in t.links && !(t.links[l].user == user && t.links[l].model == model)
    ensures forall l | l in t'.links ::
              && t'.links[l] == t.links[l].(active := t'.links[l].active)
              && (t.links[l].user != user || t.links[l].active ==> t'.links[l] == t.links[l])
    ensures forall g :: g in t'.gpts <==>
              && g in t.gpts
              && (g != model || exists l :: l in t.links && t.links[l].model == g && t.links[l].user != user)
    ensures forall g | g in t'.gpts :: t'.gpts[g] == t.gpts[g]
    ensures t'.general == t.general && t'.realtime == t.realtime
  {
    var left := t.links - LinksTo(t.links, user, model);
    HandedOnSameModels(t.links, LinksTo(t.links, user, model), user, t'.links);
    assert Linked(left, model) <==>
           exists l :: l in t.links && t.links[l].model == model && t.links[l].user != user by {
      if l :| l in t.links && t.links[l].model == model && t.links[l].user != user {
        assert l in left && left[l].model == model;
      }
    }
  }

  /** A name that is offered: some input name is this one after trimming, and it is not blank. */
  lemma WantedIs(names: seq<string>, w: string)
    ensures w in Wanted(names) <==> w != "" && exists i :: 0 <= i < |names| && Runes.Trim(names[i]) == w
  {
  }

  /**
    A synchronisation of one catalog, row by row: rows of other providers and rows whose trimmed
    name is offered stay, the provider's other rows go, new rows are non-default and offered.
   */
  lemma SyncedCatalog(before: map<nat, CatalogRow>, provider: nat, wanted: set<string>, after: map<nat, CatalogRow>)
    requires CatalogSynced(before, provider, wanted, after)
    ensures forall id | id in before ::
              if before[id].provider == provider && Runes.Trim(before[id].name) !in wanted then id !in after
              else id in after && after[id] == before[id]
    ensures forall id | id in after && id !in before ::
              after[id].provider == provider && !after[id].isDefault && after[id].name in wanted
    ensures forall w | w in wanted :: exists id :: id in after && after[id].provider == provider && after[id].name == w
  {
    forall w | w in wanted ensures exists id :: id in after && after[id].provider == provider && after[id].name == w {
      assert HasName(after, provider, w);
    }
  }

  /**
    The model rows after a synchronisation of the general catalog: rows of other providers and
    rows whose general model stays are untouched; the others lose their assistant and move to a
    default model of the provider that was there and stays.
   */
  lemma GeneralSynced(t: Tables, provider: nat, names: seq<string>, t': Tables)
    requires Synced(t, provider, General, names, t')
    ensures t'.links == t.links && t'.realtime == t.realtime && t'.gpts.Keys == t.gpts.Keys
    ensures CatalogSynced(t.general, provider, Wanted(names), t'.general)
    ensures forall g | g in t.gpts ::
              var id := t.gpts[g].general;
              if t.gpts[g].provider == provider && id in t.general && t.general[id].provider == provider
                 && Runes.Trim(t.general[id].name) !in Wanted(names)
              then var d := t'.gpts[g].general;
                   && d in t.general && d in t'.general && t.general[d].isDefault && t.general[d].provider == provider
                   && t'.gpts[g] == t.gpts[g].(general := d, assistant := "")
              else t'.gpts[g] == t.gpts[g]
  {
    forall g | g in t.gpts && UsesStale(t, provider, General, Wanted(names), g)
      ensures var d := t'.gpts[g].general;
              && d in t.general && d in t'.general && t.general[d].isDefault && t.general[d].provider == provider
              && t'.gpts[g] == t.gpts[g].(general := d, assistant := "")
    {
      var d :| SurvivingDefault(t, provider, General, Wanted(names), d)
               && t'.gpts[g] == WithColumn(t.gpts[g], General, d).(assistant := "");
      assert !Stale(t.general, provider, Wanted(names), d);
    }
    forall g | g in t.gpts && !UsesStale(t, provider, General, Wanted(names), g) ensures t'.gpts[g] == t.gpts[g] {
    }
  }

  /** The same for the realtime catalog and the realtime column, which may be empty. */
  lemma RealtimeSynced(t: Tables, provider: nat, names: seq<string>, t': Tables)
    requires Synced(t, provider, Realtime, names, t')
    ensures t'.links == t.links && t'.general == t.general && t'.gpts.Keys == t.gpts.Keys
    ensures CatalogSynced(t.realtime, provider, Wanted(names), t'.realtime)
    ensures forall g | g in t.gpts ::
              var r := t.gpts[g].realtime;
              if t.gpts[g].provider == provider && r.Some? && r.value in t.realtime
                 && t.realtime[r.value].provider == provider && Runes.Trim(t.realtime[r.value].name) !in Wanted(names)
              then var d := t'.gpts[g].realtime;
                   && d.Some? && d.value in t.realtime && d.value in t'.realtime
                   && t.realtime[d.value].isDefault && t.realtime[d.value].provider == provider
                   && t'.gpts[g] == t.gpts[g].(realtime := d, assistant := "")
              else t'.gpts[g] == t.gpts[g]
  {
    forall g | g in t.gpts && UsesStale(t, provider, Realtime, Wanted(names), g)
      ensures var d := t'.gpts[g].realtime;
              && d.Some? && d.value in t.realtime && d.value in t'.realtime
              && t.realtime[d.value].isDefault && t.realtime[d.value].provider == provider
              && t'.gpts[g] == t.gpts[g].(realtime := d, assistant := "")
    {
      var d :| SurvivingDefault(t, provider, Realtime, Wanted(names), d)
               && t'.gpts[g] == WithColumn(t.gpts[g], Realtime, d).(assistant := "");
      assert !Stale(t.realtime, provider, Wanted(names), d);
    }
    forall g | g in t.gpts && !UsesStale(t, provider, Realtime, Wanted(names), g) ensures t'.gpts[g] == t.gpts[g] {
    }
  }

  /** When the general catalog can be synchronised, said of the rows. */
  lemma GeneralCanSync(t: Tables, provider: nat, wanted: set<string>)
    ensures CanSync(t, provider, General, wanted) <==>
            || (forall g | g in t.gpts && t.gpts[g].provider == provider && t.gpts[g].general in t.general ::
                  var row := t.general[t.gpts[g].general];
                  row.provider == provider ==> Runes.Trim(row.name) in wanted)
            || (exists d :: d in t.general && t.general[d].provider == provider && t.general[d].isDefault
                            && Runes.Trim(t.general[d].name) in wanted)
  {
    if g :| UsesStale(t, provider, General, wanted, g) {
      assert Stale(t.general, provider, wanted, t.gpts[g].general);
      if d :| d in t.general && t.general[d].provider == provider && t.general[d].isDefault
              && Runes.Trim(t.general[d].name) in wanted {
        assert SurvivingDefault(t, provider, General, wanted, d);
      }
    } else {
      forall g | g in t.gpts && t.gpts[g].provider == provider && t.gpts[g].general in t.general
        ensures t.general[t.gpts[g].general].provider == provider ==>
                  Runes.Trim(t.general[t.gpts[g].general].name) in wanted
      {
        assert !UsesStale(t, provider, General, wanted, g);
      }
    }
  }

  lemma RealtimeCanSync(t: Tables, provider: nat, wanted: set<string>)
    ensures CanSync(t, provider, Realtime, wanted) <==>
            || (forall g | g in t.gpts && t.gpts[g].provider == provider && t.gpts[g].realtime.Some?
                           && t.gpts[g].realtime.value in t.realtime ::
                  var row := t.realtime[t.gpts[g].realtime.value];
                  row.provider == provider ==> Runes.Trim(row.name) in wanted)
            || (exists d :: d in t.realtime && t.realtime[d].provider == provider && t.realtime[d].isDefault
                            && Runes.Trim(t.realtime[d].name) in wanted)
  {
    if g :| UsesStale(t, provider, Realtime, wanted, g) {
      assert Stale(t.realtime, provider, wanted, t.gpts[g].realtime.value);
      if d :| d in t.realtime && t.realtime[d].provider == provider && t.realtime[d].isDefault
              && Runes.Trim(t.realtime[d].name) in wanted {
        assert SurvivingDefault(t, provider, Realtime, wanted, d);
      }
    } else {
      forall g | g in t.gpts && t.gpts[g].provider == provider && t.gpts[g].realtime.Some?
                 && t.gpts[g].realtime.value in t.realtime
        ensures t.realtime[t.gpts[g].realtime.value].provider == provider ==>
                  Runes.Trim(t.realtime[t.gpts[g].realtime.value].name) in wanted
      {
        assert !UsesStale(t, provider, Realtime, wanted, g);
      }
    }
  }

  // ---------- runs ----------

  datatype Op =
    | SaveOp(user: nat, row: GptRow)
    | ActivateOp(user: nat, link: nat)
    | RemoveOp(user: nat, model: nat)
    | SyncOp(provider: nat, kind: ModelKind, names: seq<string>)

  /** A transaction either leaves the tables alone or commits its effect. */
  ghost predicate Step(t: Tables, op: Op, t': Tables) {
    t' == t ||
    match op
    case SaveOp(user, row) => user != 0 && FromCatalog(t, row) && Saved(t, user, row, t')
    case ActivateOp(user, link) => Activated(t, user, link, t')
    case RemoveOp(user, model) => Removed(t, user, model, t')
    case SyncOp(provider, kind, names) => Synced(t, provider, kind, names, t')
  }

  ghost predicate IsRun(states: seq<Tables>, ops: seq<Op>) {
    |states| == |ops| + 1 && forall i :: 0 <= i < |ops| ==> Step(states[i], ops[i], states[i + 1])
  }

  /** Every state of every run keeps the invariant. */
  lemma {:induction false} RunKeepsInv(states: seq<Tables>, ops: seq<Op>, i: nat)
    requires IsRun(states, ops) && Inv(states[0]) && i <= |ops|
    ensures Inv(states[i])
  {
    if i > 0 {
      RunKeepsInv(states, ops, i - 1);
      var t, t' := states[i - 1], states[i];
      assert Step(t, ops[i - 1], t');
      if t' != t {
        match ops[i - 1]
        case SaveOp(user, row) => SavedKeepsInv(t, user, row, t');
        case ActivateOp(user, link) => ActivatedKeepsInv(t, user, link, t');
        case RemoveOp(user, model) => RemovedKeepsInv(t, user, model, t');
        case SyncOp(provider, kind, names) => SyncedKeepsInv(t, provider, kind, names, t');
      }
    }
  }

  lemma EmptyTablesSound(general: map<nat, CatalogRow>, realtime: map<nat, CatalogRow>)
    ensures Inv(Tables(map[], map[], general, realtime))
  {
  }

  // ---------- the active provider ----------

  /** The active links of a user. */
  function ActiveLinks(t: Tables, user: nat): set<nat> {
    set l | l in t.links && t.links[l].user == user && t.links[l].active
  }

  datatype ActiveError = BadUser | NoActiveModel | SeveralActive

  function ActiveProvider(t: Tables, user: nat): Result<nat, ActiveError> {
    if user == 0 then Err(BadUser)
    else if ActiveLinks(t, user) == {} then Err(NoActiveModel)
    else if |ActiveLinks(t, user)| > 1 then Err(SeveralActive)
    else OnlyProvider(t, ActiveLinks(t, user))
  }

  function OnlyProvider(t: Tables, active: set<nat>): Result<nat, ActiveError>
    requires |active| == 1 && active <= t.links.Keys
  {
    OneElement(active);
    var l :| l in active;
    Ok(t.links[l].provider)
  }

  lemma OneElement(s: set<nat>)
    requires |s| == 1
    ensures exists a :: s == {a}
  {
    var a :| a in s;
    assert |s - {a}| == 0;
    assert s == {a};
  }

  /** On sound tables the lookup succeeds exactly for users with a model, and gives the active one's provider. */
  lemma ActiveProviderSound(t: Tables, user: nat)
    requires LinksSound(t.links, t.gpts) && AtMostOneActive(t.links) && SomeActive(t.links)
    ensures ActiveProvider(t, user).Ok? <==> HasModel(t.links, user)
    ensures forall l :: l in ActiveLinks(t, user) ==> ActiveProvider(t, user) == Ok(t.links[l].provider)
  {
    var active := ActiveLinks(t, user);
    if a :| a in active {
      assert active == {a};
      assert HasModel(t.links, user);
    } else if l :| l in t.links && t.links[l].user == user {
      assert HasActive(t.links, user);
      var a :| a in t.links && t.links[a].user == user && t.links[a].active;
      assert a in active;
    }
  }
}
