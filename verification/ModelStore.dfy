/**
  The database methods of pkg/comdb/model.go and pkg/comdb/provider.go over the tables:
  each transaction updates the tables statement by statement and commits or rolls back.
 */
module ModelStore {
  import opened Wrappers
  import opened ModelTables
  import opened ProviderSync
  import Runes

  datatype StoreError =
    | BadInput
    | UnknownModel    // a catalog id violates a foreign key
    | NotFound
    | ChannelsFailed  // reported after the transaction has committed
    | SyncFailed(sync: SyncError)

  // ---------- transactions on a working copy ----------

  /** The ids that AUTO_INCREMENT hands out next for links and models are unused. */
  ghost predicate FreshIds(t: Tables, nextLink: nat, nextGpt: nat) {
    Below(t.links, nextLink) && Below(t.gpts, nextGpt) && forall l :: l in t.links ==> t.links[l].model < nextGpt
  }

  /**
    Saving: the model of the user and provider is overwritten if there is one, and inserted
    with a link otherwise. newLink and newGpt are the next unused ids.
   */
  method SaveTransaction(t: Tables, user: nat, row: GptRow, newLink: nat, newGpt: nat, now: nat) returns (t': Tables)
    requires FreshIds(t, newLink, newGpt)
    ensures Saved(t, user, row, t')
    ensures FreshIds(t', newLink + 1, newGpt + 1)
  {
    if l :| l in t.links && Carries(t, l, user, row.provider) {
      var modelId := t.links[l].model;
      t' := t.(gpts := t.gpts[modelId := row.(provider := t.gpts[modelId].provider)]);
      assert SavedOver(t, user, row, l, t');
    } else {
      var mine := set l | l in t.links && t.links[l].user == user;
      var modelCount := |mine|;
      assert HasModel(t.links, user) <==> mine != {} by {
        if l :| l in t.links && t.links[l].user == user {
          assert l in mine;
        }
      }
      t' := t.(gpts := t.gpts[newGpt := row]);
      t' := t'.(links := t.links[newLink := Link(user, newGpt, row.provider, modelCount == 0, now)]);
      assert SavedNew(t, user, row, newLink, newGpt, now, t');
    }
  }

  /** The two updates of a switch: clear every active flag of the user, then set one of the given rows. */
  method SwitchTransaction(links: map<nat, Link>, user: nat, rows: set<nat>) returns (ok: bool, links': map<nat, Link>)
    requires forall l :: l in rows ==> l in links && links[l].user == user
    ensures ok <==> rows != {}
    ensures ok ==> exists l :: l in rows && links' == Activate(links, user, l)
  {
    links' := map l | l in links ::
      if links[l].user == user && links[l].active then links[l].(active := false) else links[l];
    if rows == {} {
      return false, links';
    }
    var l :| l in rows;
    links' := links'[l := links'[l].(active := true)];
    assert links' == Activate(links, user, l);
    return true, links';
  }

  /** Removing a link: lastGone tells that the user's active model went and none is left. */
  method RemoveTransaction(t: Tables, user: nat, model: nat) returns (t': Tables, lastGone: bool)
    requires LinksSound(t.links, t.gpts) && OneModelPerProvider(t.links)
    requires LinksTo(t.links, user, model) != {}
    ensures Removed(t, user, model, t')
    ensures lastGone <==>
              (exists l :: l in LinksTo(t.links, user, model) && t.links[l].active) && !HasModel(t'.links, user)
    ensures forall nextLink, nextGpt :: FreshIds(t, nextLink, nextGpt) ==> FreshIds(t', nextLink, nextGpt)
  {
    hide LinksSound, OneModelPerProvider, HandedOn;
    var mine := LinksTo(t.links, user, model);
    var first :| first in mine;
    var wasActive := t.links[first].active;
    OnlyLink(t, user, model, first);
    var left := t.links - mine;
    var gpts := t.gpts;
    var others := set l | l in left && left[l].model == model;
    assert others == {} <==> !Linked(left, model) by {
      assert forall l :: l in left && left[l].model == model ==> l in others;
    }
    if |others| == 0 {
      gpts := gpts - {model};
    }
    var links;
    lastGone, links := HandOn(t.links, mine, user, wasActive);
    t' := t.(links := links, gpts := gpts);
  }

  /** The active flag goes to any other link of the user, if the removed ones had it. */
  method HandOn(links: map<nat, Link>, gone: set<nat>, user: nat, wasActive: bool)
    returns (none: bool, links': map<nat, Link>)
    requires wasActive <==> exists l :: l in gone && l in links && links[l].active
    ensures HandedOn(links, gone, user, links')
    ensures none <==> wasActive && !HasModel(links', user)
    ensures links'.Keys == links.Keys - gone
    ensures forall l :: l in links' ==> links'[l].model == links[l].model
  {
    var left := links - gone;
    if !wasActive {
      return false, left;
    }
    if next :| next in left && left[next].user == user {
      links' := left[next := left[next].(active := true)];
      assert HasModel(left, user);
      assert next in links' && links'[next].user == user;
      return false, links';
    }
    return true, left;
  }

  /** The row that saving writes. */
  function RowOf(name: string, provider: nat, generalId: nat, realtimeId: nat, assistant: string, payload: string)
    : GptRow
  {
    GptRow(name, provider, generalId, if realtimeId == 0 then None else Some(realtimeId), assistant, payload)
  }

  /** The foreign keys of a row: its catalog ids exist. */
  predicate KnownIds(t: Tables, row: GptRow) {
    row.general in t.general && (row.realtime.Some? ==> row.realtime.value in t.realtime)
  }

  /** The catalog ids of a row that exist belong to its provider. */
  predicate OwnIds(t: Tables, row: GptRow) {
    && (row.general in t.general ==> RefersTo(t.general, row.provider, row.general))
    && (row.realtime.Some? && row.realtime.value in t.realtime ==>
          RefersTo(t.realtime, row.provider, row.realtime.value))
  }

  /** The kinds a caller passes: 1 is the general catalog, 2 the realtime one. */
  function KindOf(kind: nat): ModelKind { if kind == 1 then General else Realtime }

  class DB {
    var links: map<nat, Link>
    var gpts: map<nat, GptRow>
    var general: map<nat, CatalogRow>
    var realtime: map<nat, CatalogRow>
    var nextLink: nat
    var nextGpt: nat
    var nextCatalog: nat

    function View(): Tables
      reads this
    {
      Tables(links, gpts, general, realtime)
    }

    ghost predicate Valid()
      reads this
    {
      && Inv(View())
      && FreshIds(View(), nextLink, nextGpt)
      && Below(general, nextCatalog) && Below(realtime, nextCatalog)
    }

    /** A database with two catalogs and no user models. */
    constructor (general: map<nat, CatalogRow>, realtime: map<nat, CatalogRow>, nextCatalog: nat)
      requires Below(general, nextCatalog) && Below(realtime, nextCatalog)
      ensures Valid() && View() == Tables(map[], map[], general, realtime)
    {
      this.links, this.gpts := map[], map[];
      this.general, this.realtime := general, realtime;
      this.nextLink, this.nextGpt, this.nextCatalog := 1, 1, nextCatalog;
      new;
      EmptyTablesSound(general, realtime);
    }

    method GetActiveProvider(user: nat) returns (r: Result<nat, ActiveError>)
      requires Valid()
      ensures r == ActiveProvider(View(), user)
      ensures r.Ok? <==> HasModel(links, user)
      ensures user == 0 ==> r == Err(BadUser)
      ensures user != 0 && !HasModel(links, user) ==> r == Err(NoActiveModel)
      ensures forall l :: l in ActiveLinks(View(), user) ==> r == Ok(links[l].provider)
    {
      ActiveProviderSound(View(), user);
      if user == 0 {
        return Err(BadUser);
      }
      var rows := ActiveLinks(View(), user);
      if |rows| == 0 {
        return Err(NoActiveModel);
      }
      if |rows| > 1 {
        return Err(SeveralActive);
      }
      var row :| row in rows;
      return Ok(links[row].provider);
    }

    /**
      Saving a model; realtimeId 0 means none. The catalog ids are the caller's. An id that is in
      no catalog violates a foreign key; an id of another provider is stored all the same, and the
      tables stay sound exactly if there is none.
     */
    method SaveUserModel(user: nat, provider: nat, name: string, assistant: string, payload: string,
                         generalId: nat, realtimeId: nat, now: nat)
      returns (r: Result<(), StoreError>)
      requires Valid()
      modifies this
      ensures r.Err? ==> Valid()
      ensures r.Ok? ==>
                (Valid() <==> OwnIds(old(View()), RowOf(name, provider, generalId, realtimeId, assistant, payload)))
      ensures r == Err(BadInput) <==> user == 0 || name == "" || assistant == "" || !(1 <= provider <= 4)
      ensures r == Err(UnknownModel) <==>
                && user != 0 && name != "" && assistant != "" && 1 <= provider <= 4
                && !KnownIds(old(View()), RowOf(name, provider, generalId, realtimeId, assistant, payload))
      ensures r in {Err(BadInput), Err(UnknownModel), Ok(())}
      ensures r.Err? ==> View() == old(View())
      ensures r.Ok? ==>
                Saved(old(View()), user, RowOf(name, provider, generalId, realtimeId, assistant, payload), View())
      ensures r.Ok? ==>
                exists l :: l in links && links[l].user == user && links[l].provider == provider
                  && links[l].model in gpts
                  && gpts[links[l].model].name == name && gpts[links[l].model].provider == provider
                  && gpts[links[l].model].general == generalId
                  && gpts[links[l].model].realtime == (if realtimeId == 0 then None else Some(realtimeId))
                  && gpts[links[l].model].assistant == assistant && gpts[links[l].model].payload == payload
      ensures r.Ok? ==> forall k | k in old(links) :: k in links && links[k] == old(links)[k]
      ensures general == old(general) && realtime == old(realtime)
    {
      hide Inv, Saved, OwnIds, KnownIds, FreshIds, Below;
      if user == 0 || name == "" || assistant == "" || !ValidProvider(provider) {
        return Err(BadInput);
      }
      var row := RowOf(name, provider, generalId, realtimeId, assistant, payload);
      var t := View();
      if !KnownIds(t, row) {
        return Err(UnknownModel);
      }
      var t' := SaveTransaction(t, user, row, nextLink, nextGpt, now);
      SaveOutcome(t, user, row, t');
      links, gpts, nextLink, nextGpt := t'.links, t'.gpts, nextLink + 1, nextGpt + 1;
      assert View() == t';
      return Ok(());
    }

    /** Switching the active model by the id of the user_models row. */
    method SetActiveModel(user: nat, linkId: nat) returns (r: Result<(), StoreError>)
      requires Valid()
      modifies this`links
      ensures Valid()
      ensures r.Ok? <==> user != 0 && linkId != 0 && linkId in old(links) && old(links)[linkId].user == user
      ensures r.Ok? ==> Activated(old(View()), user, linkId, View())
      ensures r.Ok? ==> linkId in links && forall k | k in links && links[k].user == user ::
                links[k].active <==> k == linkId
      ensures r.Err? ==> View() == old(View())
    {
      if user == 0 || linkId == 0 {
        return Err(BadInput);
      }
      var rows := set l | l in links && l == linkId && links[l].user == user;
      assert linkId in links && links[linkId].user == user <==> linkId in rows;
      var ok, links' := SwitchTransaction(links, user, rows);
      if !ok {
        return Err(NotFound);
      }
      ActivatedKeepsInv(View(), user, linkId, View().(links := links'));
      links := links';
      return Ok(());
    }

    /** Switching to the user's model of a provider; the newest one, if there were several. */
    method SetActiveModelByProvider(user: nat, provider: nat) returns (r: Result<(), StoreError>)
      requires Valid()
      modifies this`links
      ensures Valid()
      ensures r.Ok? <==>
                user != 0
                && exists l :: l in old(links) && old(links)[l].user == user && old(links)[l].provider == provider
      ensures r.Ok? ==>
                exists l :: l in old(links) && old(links)[l].provider == provider
                            && Activated(old(View()), user, l, View())
      ensures r.Err? ==> View() == old(View())
    {
      if user == 0 {
        return Err(BadInput);
      }
      var rows := set l | l in links && links[l].user == user && links[l].provider == provider && Newest(links, l);
      assert forall l :: l in links && links[l].user == user && links[l].provider == provider ==> l in rows by {
        OneIsNewest(links);
      }
      var ok, links' := SwitchTransaction(links, user, rows);
      if !ok {
        return Err(NotFound);
      }
      var l :| l in rows && links' == Activate(links, user, l);
      ActivatedKeepsInv(View(), user, l, View().(links := links'));
      assert Activated(View(), user, l, View().(links := links'));
      links := links';
      return Ok(());
    }

    /**
      Removing a model from a user. channelsOk says whether switching off the channels of a
      user without models would succeed; that call comes after the commit.
     */
    method RemoveModelFromUser(user: nat, model: nat, channelsOk: bool) returns (r: Result<(), StoreError>)
      requires Valid()
      modifies this`links, this`gpts
      ensures Valid()
      ensures r == Err(BadInput) <==> user == 0 || model == 0
      ensures r == Err(NotFound) <==> user != 0 && model != 0 && LinksTo(old(links), user, model) == {}
      ensures r in {Err(BadInput), Err(NotFound), Err(ChannelsFailed), Ok(())}
      ensures r == Err(BadInput) || r == Err(NotFound) ==> View() == old(View())
      ensures r == Ok(()) || r == Err(ChannelsFailed) ==> Removed(old(View()), user, model, View())
      ensures r == Err(ChannelsFailed) <==>
                !channelsOk && user != 0 && model != 0 && !HasModel(links, user)
                && exists l :: l in LinksTo(old(links), user, model) && old(links)[l].active
      ensures r == Err(ChannelsFailed) <==>
                && !channelsOk && user != 0 && model != 0
                && LinksTo(old(links), user, model) != {} && OnlyModel(old(links), user, model)
    {
      if user == 0 || model == 0 {
        return Err(BadInput);
      }
      if LinksTo(links, user, model) == {} {
        return Err(NotFound);
      }
      var t := View();
      var t', lastGone := RemoveTransaction(t, user, model);
      RemovedKeepsInv(t, user, model, t');
      NoneLeft(t, user, model, t');
      links, gpts := t'.links, t'.gpts;
      assert View() == t';
      if lastGone && !channelsOk {
        return Err(ChannelsFailed);
      }
      return Ok(());
    }

    /** Catalog synchronisation: kind 1 is the general catalog, 2 the realtime one. */
    method SyncProviderModels(provider: nat, kind: nat, names: seq<string>) returns (r: Result<SyncResult, StoreError>)
      requires Valid()
      modifies this
      ensures Valid()
      ensures r.Ok? <==> 1 <= provider <= 4 && (kind == 1 || kind == 2)
                         && CanSync(old(View()), provider, KindOf(kind), Wanted(names))
      ensures r.Err? ==> View() == old(View())
      ensures r.Ok? ==> Synced(old(View()), provider, KindOf(kind), names, View())
      ensures r.Ok? && kind == 1 ==>
                && realtime == old(realtime) && links == old(links)
                && (set id | id in general && general[id].provider == provider :: Runes.Trim(general[id].name))
                   == Wanted(names)
                && gpts.Keys == old(gpts).Keys
                && forall g | g in gpts :: gpts[g].realtime == old(gpts)[g].realtime
      ensures r.Ok? && kind == 2 ==>
                && general == old(general) && links == old(links)
                && (set id | id in realtime && realtime[id].provider == provider :: Runes.Trim(realtime[id].name))
                   == Wanted(names)
                && gpts.Keys == old(gpts).Keys
                && forall g | g in gpts :: gpts[g].general == old(gpts)[g].general
      ensures r.Ok? ==>
                Removes(old(View()), provider, KindOf(kind),
                        StaleSet(Catalog(old(View()), KindOf(kind)), provider, Wanted(names)), r.value)
      ensures r.Ok? ==> r.value.synced == |Wanted(names)|
                        && UserSet(r.value.affected) == AffectedUsers(old(View()), provider, KindOf(kind), names)
    {
      hide Synced, CanSync, Removes, UserSet, UsersOf;
      if !ValidProvider(provider) {
        return Err(SyncFailed(BadProvider));
      }
      if kind != 1 && kind != 2 {
        return Err(SyncFailed(BadKind));
      }
      var t, column := View(), KindOf(kind);
      var ok, t', result, lastId := SyncTransaction(t, provider, column, names, nextCatalog);
      if !ok {
        return Err(SyncFailed(NoReplacement));
      }
      SyncedKeepsInv(t, provider, column, names, t');
      SyncedRest(t, provider, column, names, t');
      SyncedColumns(t, provider, names, t');
      gpts, general, realtime, nextCatalog := t'.gpts, t'.general, t'.realtime, lastId;
      assert View() == t';
      return Ok(result);
    }
  }

  /** What a save of a row with known ids does to sound tables. */
  lemma SaveOutcome(t: Tables, user: nat, row: GptRow, t': Tables)
    requires Inv(t) && user != 0 && KnownIds(t, row) && Saved(t, user, row, t')
    ensures Inv(t') <==> OwnIds(t, row)
    ensures exists l :: l in t'.links && t'.links[l].user == user && t'.links[l].provider == row.provider
                        && t'.links[l].model in t'.gpts && t'.gpts[t'.links[l].model] == row
    ensures forall k | k in t.links :: k in t'.links && t'.links[k] == t.links[k]
    ensures t'.general == t.general && t'.realtime == t.realtime
  {
    assert LinksSound(t.links, t.gpts);
    hide Inv, Saved, FromCatalog, OwnIds, KnownIds, LinksSound;
    IdsDecide(t, row);
    SavedRows(t, user, row, t');
    if OwnIds(t, row) {
      SavedKeepsInv(t, user, row, t');
    } else {
      SavedForeign(t, user, row, t');
    }
  }

  lemma SyncedRest(t: Tables, provider: nat, kind: ModelKind, names: seq<string>, t': Tables)
    requires Synced(t, provider, kind, names, t')
    ensures t'.links == t.links && Catalog(t', Other(kind)) == Catalog(t, Other(kind))
    ensures t'.gpts.Keys == t.gpts.Keys
  {
  }

  lemma SyncedColumns(t: Tables, provider: nat, names: seq<string>, t': Tables)
    ensures Synced(t, provider, General, names, t') ==>
              && t'.realtime == t.realtime && t'.gpts.Keys == t.gpts.Keys
              && (set id | id in t'.general && t'.general[id].provider == provider :: Runes.Trim(t'.general[id].name))
                 == Wanted(names)
              && forall g | g in t'.gpts :: t'.gpts[g].realtime == t.gpts[g].realtime
    ensures Synced(t, provider, Realtime, names, t') ==>
              && t'.general == t.general && t'.gpts.Keys == t.gpts.Keys
              && (set id | id in t'.realtime && t'.realtime[id].provider == provider ::
                    Runes.Trim(t'.realtime[id].name)) == Wanted(names)
              && forall g | g in t'.gpts :: t'.gpts[g].general == t.gpts[g].general
  {
    if Synced(t, provider, General, names, t') {
      GeneralSynced(t, provider, names, t');
      SyncedNames(t.general, provider, names, t'.general);
    }
    if Synced(t, provider, Realtime, names, t') {
      RealtimeSynced(t, provider, names, t');
      SyncedNames(t.realtime, provider, names, t'.realtime);
    }
  }

  lemma IdsDecide(t: Tables, row: GptRow)
    requires KnownIds(t, row)
    ensures FromCatalog(t, row) <==> OwnIds(t, row)
  {
  }

  /** Saving a reference to another provider's catalog row leaves it dangling. */
  lemma SavedForeign(t: Tables, user: nat, row: GptRow, t': Tables)
    requires Inv(t) && Saved(t, user, row, t') && !FromCatalog(t, row)
    ensures !Inv(t')
  {
    if l :| SavedOver(t, user, row, l, t') {
      assert t'.gpts[t.links[l].model] == row;
      assert !FromCatalog(t', t'.gpts[t.links[l].model]);
    } else {
      var l: nat, m: nat, now: nat :| SavedNew(t, user, row, l, m, now, t');
      assert t'.gpts[m] == row;
      assert !FromCatalog(t', t'.gpts[m]);
    }
  }

  /** The user has no other model. */
  predicate OnlyModel(links: map<nat, Link>, user: nat, model: nat) {
    forall l | l in links && links[l].user == user :: links[l].model == model
  }

  /** After a removal the user is without models exactly if there was no other one, and then it was active. */
  lemma NoneLeft(t: Tables, user: nat, model: nat, t': Tables)
    requires LinksSound(t.links, t.gpts) && SomeActive(t.links) && Removed(t, user, model, t')
    ensures HasModel(t'.links, user) <==> !OnlyModel(t.links, user, model)
    ensures OnlyModel(t.links, user, model) ==> exists l :: l in LinksTo(t.links, user, model) && t.links[l].active
  {
    var gone := LinksTo(t.links, user, model);
    HandedOnSameModels(t.links, gone, user, t'.links);
    if OnlyModel(t.links, user, model) {
      var l :| l in gone;
      assert HasActive(t.links, t.links[l].user);
      var a :| a in t.links && t.links[a].user == user && t.links[a].active;
      assert a in gone;
    } else {
      var l :| l in t.links && t.links[l].user == user && t.links[l].model != model;
      assert l in t'.links && t'.links[l].user == user;
    }
  }

  /** Tables with one user, who has one model. */
  const SINGLE := Tables(
    map[1 := Link(1, 1, 1, true, 0)],
    map[1 := GptRow("model", 1, 1, None, "assistant", "")],
    map[1 := CatalogRow(1, true, "base")],
    map[])

  /**
    These tables are sound and meet the condition under which RemoveModelFromUser, when switching
    off the channels fails, reports an error although all rows are gone.
   */
  lemma SingleModelGoes(t': Tables)
    ensures Inv(SINGLE) && LinksTo(SINGLE.links, 1, 1) == {1} && OnlyModel(SINGLE.links, 1, 1)
    ensures Removed(SINGLE, 1, 1, t') <==> t' == SINGLE.(links := map[], gpts := map[])
  {
    assert 1 in SINGLE.links && SINGLE.links[1].active;
    assert HasActive(SINGLE.links, 1) && Linked(SINGLE.links, 1);
    assert FromCatalog(SINGLE, SINGLE.gpts[1]);
    assert LinksTo(SINGLE.links, 1, 1) == {1} && SINGLE.links - {1} == map[];
    assert SINGLE.gpts - {1} == map[];
    assert !Linked(map[], 1) && !HasModel(map[], 1);
  }

  /** The users linked to a row that uses a stale model. */
  ghost function AffectedUsers(t: Tables, provider: nat, kind: ModelKind, names: seq<string>): set<nat> {
    UsersOf(t, provider, kind, StaleSet(Catalog(t, kind), provider, Wanted(names)))
  }

  /** A user is linked to a model at most once, so the first row tells whether the model was active. */
  lemma OnlyLink(t: Tables, user: nat, model: nat, first: nat)
    requires LinksSound(t.links, t.gpts) && OneModelPerProvider(t.links)
    requires first in LinksTo(t.links, user, model)
    ensures LinksTo(t.links, user, model) == {first}
  {
    forall l | l in LinksTo(t.links, user, model) ensures l == first {
      assert l in t.links && first in t.links;
    }
  }

  /** No other model of the same user and provider is newer. */
  predicate Newest(links: map<nat, Link>, l: nat)
    requires l in links
  {
    forall k :: k in links ==>
      links[k].user == links[l].user && links[k].provider == links[l].provider ==>
        links[k].createdAt <= links[l].createdAt
  }

  lemma OneIsNewest(links: map<nat, Link>)
    requires OneModelPerProvider(links)
    ensures forall l :: l in links ==> Newest(links, l)
  {
  }
}
