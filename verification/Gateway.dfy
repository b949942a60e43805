/** Provider registration and routing, `llm/gateway/gateway.go`: a list of providers with one entry a
    name, and an index from model names to entries, both edited in place. */
module Gateways {
  import opened Options

  /** One call of `RegisterProvider`. */
  datatype Registration<M> = Registration(name: string, model: M, models: seq<string>)

  /** A provider's entry. Entries are compared by identity: `id` is the number of the registration
      that made the entry, or -1 if `New` did. */
  datatype Entry<M> = Entry(id: int, name: string, model: M, models: seq<string>)

  datatype Routed<M> = Found(model: M) | NoProviders | ModelNotFound

  // ---------- What a history of registrations means ----------

  type History<M> = seq<Registration<M>>

  /** The last registration that lists `m`. */
  function LastListing<M>(h: History<M>, m: string): (k: Option<nat>)
    ensures k.Some? ==> k.value < |h| && m in h[k.value].models
    ensures k.Some? ==> forall j :: k.value < j < |h| ==> m !in h[j].models
    ensures k.None? ==> forall j :: 0 <= j < |h| ==> m !in h[j].models
  {
    if h == [] then None
    else if m in h[|h| - 1].models then Some(|h| - 1)
    else LastListing(h[..|h| - 1], m)
  }

  /** The name of registration `k` has not been registered again. */
  predicate Live<M>(h: History<M>, k: nat)
    requires k < |h|
  {
    forall j :: k < j < |h| ==> h[j].name != h[k].name
  }

  function Route<M>(h: History<M>, m: string): Option<nat> {
    var k := LastListing(h, m);
    if k.Some? && Live(h, k.value) then k else None
  }

  lemma RouteAfter<M>(h: History<M>, r: Registration<M>, m: string)
    ensures Route(h + [r], m) ==
            if m in r.models then Some(|h|)
            else if Route(h, m).Some? && h[Route(h, m).value].name != r.name then Route(h, m)
            else None
  {
    assert (h + [r])[..|h|] == h;
    LiveAfter(h, r);
  }

  lemma LiveAfter<M>(h: History<M>, r: Registration<M>)
    ensures Live(h + [r], |h|)
    ensures forall k :: 0 <= k < |h| ==> (Live(h + [r], k) <==> Live(h, k) && h[k].name != r.name)
  {
    var h' := h + [r];
    forall k | 0 <= k < |h| ensures Live(h', k) <==> Live(h, k) && h[k].name != r.name {
      assert forall j :: 0 <= j < |h| ==> h'[j] == h[j];
      if Live(h', k) {
        assert h'[|h|].name != h'[k].name;
        forall j | k < j < |h| ensures h[j].name != h[k].name {
          assert h'[j].name != h'[k].name;
        }
      }
    }
  }

  function MadeBy<M>(h: History<M>, k: nat): Entry<M>
    requires k < |h|
  {
    Entry(k, h[k].name, h[k].model, h[k].models)
  }

  // ---------- What the fields mean ----------

  ghost predicate EntryValid<M>(h: History<M>, initial: set<string>, e: Entry<M>) {
    if e.id >= 0 then e.id < |h| && e == MadeBy(h, e.id) && Live(h, e.id)
    else e.models == [] && e.name in initial && forall k :: 0 <= k < |h| ==> h[k].name != e.name
  }

  /** One entry a name, each for the last registration of its name. */
  ghost predicate ProvidersValid<M>(h: History<M>, initial: set<string>, providers: seq<Entry<M>>) {
    && (forall i, j :: 0 <= i < j < |providers| ==> providers[i].name != providers[j].name)
    && (forall i :: 0 <= i < |providers| ==> EntryValid(h, initial, providers[i]))
    && (forall k :: 0 <= k < |h| && Live(h, k) ==> MadeBy(h, k) in providers)
    && (providers == [] <==> initial == {} && h == [])
  }

  /** The index is what the history says. */
  ghost predicate IndexValid<M>(h: History<M>, modelMap: map<string, Entry<M>>, m: string) {
    && (m in modelMap <==> Route(h, m).Some?)
    && (m in modelMap ==> modelMap[m] == MadeBy(h, Route(h, m).value))
  }

  lemma EntryAfter<M>(h: History<M>, initial: set<string>, e: Entry<M>, r: Registration<M>)
    requires EntryValid(h, initial, e) && e.name != r.name
    ensures EntryValid(h + [r], initial, e)
  {
    LiveAfter(h, r);
  }

  lemma NewEntryValid<M>(h: History<M>, initial: set<string>, r: Registration<M>)
    ensures EntryValid(h + [r], initial, MadeBy(h + [r], |h|))
  {
    LiveAfter(h, r);
  }

  lemma ReplaceKeeps<M>(h: History<M>, initial: set<string>, providers: seq<Entry<M>>, r: Registration<M>, i: nat)
    requires ProvidersValid(h, initial, providers) && i < |providers| && providers[i].name == r.name
    ensures ProvidersValid(h + [r], initial, providers[i := MadeBy(h + [r], |h|)])
  {
    var h', ps := h + [r], providers[i := MadeBy(h + [r], |h|)];
    NewEntryValid(h, initial, r);
    forall j | 0 <= j < |ps| ensures EntryValid(h', initial, ps[j]) {
      if j != i {
        EntryAfter(h, initial, providers[j], r);
      }
    }
    forall k | 0 <= k < |h'| && Live(h', k) ensures MadeBy(h', k) in ps {
      LiveAfter(h, r);
      if k < |h| {
        var j :| 0 <= j < |providers| && providers[j] == MadeBy(h, k);
        assert ps[j] == MadeBy(h', k);
      } else {
        assert ps[i] == MadeBy(h', k);
      }
    }
  }

  lemma AppendKeeps<M>(h: History<M>, initial: set<string>, providers: seq<Entry<M>>, r: Registration<M>)
    requires ProvidersValid(h, initial, providers)
    requires forall i :: 0 <= i < |providers| ==> providers[i].name != r.name
    ensures ProvidersValid(h + [r], initial, providers + [MadeBy(h + [r], |h|)])
  {
    var h', ps := h + [r], providers + [MadeBy(h + [r], |h|)];
    NewEntryValid(h, initial, r);
    forall j | 0 <= j < |ps| ensures EntryValid(h', initial, ps[j]) {
      if j < |providers| {
        EntryAfter(h, initial, providers[j], r);
      }
    }
    forall k | 0 <= k < |h'| && Live(h', k) ensures MadeBy(h', k) in ps {
      LiveAfter(h, r);
      if k < |h| {
        assert MadeBy(h, k) in providers && MadeBy(h', k) == MadeBy(h, k);
      } else {
        assert ps[|providers|] == MadeBy(h', k);
      }
    }
  }

  /** The entry of a name is the one the index has for models routed to that name. */
  lemma RoutedEntry<M>(h: History<M>, initial: set<string>, providers: seq<Entry<M>>, i: nat, m: string)
    requires ProvidersValid(h, initial, providers) && i < |providers|
    requires Route(h, m).Some?
    ensures h[Route(h, m).value].name == providers[i].name <==> Route(h, m).value == providers[i].id
    ensures Route(h, m).value == providers[i].id ==> m in providers[i].models
  {
    var k := Route(h, m).value;
    assert MadeBy(h, k) in providers;
    var j :| 0 <= j < |providers| && providers[j] == MadeBy(h, k);
    assert EntryValid(h, initial, providers[i]);
  }

  // ---------- The gateway ----------

  class Gateway<M> {
    var providers: seq<Entry<M>>
    var modelMap: map<string, Entry<M>>
    var created: nat  // entries made by registrations, as a name for the next one
    ghost var history: History<M>
    ghost const initial: set<string>

    ghost predicate Valid()
      reads this
    {
      && created == |history|
      && ProvidersValid(history, initial, providers)
      && forall m: string :: IndexValid(history, modelMap, m)
    }

    constructor (given: map<string, M>)
      ensures Valid() && history == [] && initial == given.Keys && modelMap == map[]
      ensures |providers| == |given|
      ensures forall e :: e in providers ==> e.name in given && e.model == given[e.name] && e.models == []
    {
      var entries := InitialEntries(given);
      providers, modelMap, created, history, initial := entries, map[], 0, [], given.Keys;
    }

    /** In any order, as for the iteration over a map. */
    static method InitialEntries(given: map<string, M>) returns (entries: seq<Entry<M>>)
      ensures |entries| == |given|
      ensures forall i, j :: 0 <= i < j < |entries| ==> entries[i].name != entries[j].name
      ensures forall i :: 0 <= i < |entries| ==>
                var e := entries[i]; e.id == -1 && e.models == [] && e.name in given && e.model == given[e.name]
    {
      entries := [];
      var left := given;
      while left != map[]
        invariant left.Keys <= given.Keys && forall n :: n in left ==> left[n] == given[n]
        invariant |entries| + |left| == |given|
        invariant forall i, j :: 0 <= i < j < |entries| ==> entries[i].name != entries[j].name
        invariant forall i :: 0 <= i < |entries| ==>
                    var e := entries[i]; e.id == -1 && e.models == [] && e.name in given && e.model == given[e.name]
        invariant forall i :: 0 <= i < |entries| ==> entries[i].name !in left
        decreases |left|
      {
        assert left.Keys != {};
        var name :| name in left;
        entries := entries + [Entry(-1, name, left[name], [])];
        assert left.Keys == (left - {name}).Keys + {name};
        left := left - {name};
      }
    }

    /** Every index entry leads to a live provider that lists the model. */
    lemma IndexIsLive(m: string)
      requires Valid() && m in modelMap
      ensures modelMap[m] in providers && m in modelMap[m].models
    {
      assert IndexValid(history, modelMap, m);
    }

    method RouteModel(m: string) returns (r: Routed<M>)
      requires Valid()
      ensures r == if initial == {} && history == [] then NoProviders
                   else if Route(history, m).Some? then Found(history[Route(history, m).value].model)
                   else ModelNotFound
    {
      assert IndexValid(history, modelMap, m);
      if |providers| == 0 {
        return NoProviders;
      }
      if m !in modelMap {
        return ModelNotFound;
      }
      return Found(modelMap[m].model);
    }

    /** The loop that removes an entry's models from the index, unless another entry has them. */
    method RemoveModels(e: Entry<M>)
      modifies this`modelMap
      ensures modelMap == map m
                  | m in old(modelMap) && !(m in e.models && old(modelMap)[m].id == e.id) :: old(modelMap)[m]
    {
      var i := 0;
      while i < |e.models|
        invariant 0 <= i <= |e.models|
        invariant modelMap == map m
                    | m in old(modelMap) && !(m in e.models[..i] && old(modelMap)[m].id == e.id) :: old(modelMap)[m]
      {
        var m := e.models[i];
        if m in modelMap && modelMap[m].id == e.id {
          modelMap := modelMap - {m};
        }
        i := i + 1;
      }
      assert e.models[..i] == e.models;
    }

    method AddModels(e: Entry<M>)
      modifies this`modelMap
      ensures modelMap.Keys == old(modelMap).Keys + set m | m in e.models
      ensures forall m :: m in modelMap ==> modelMap[m] == if m in e.models then e else old(modelMap)[m]
    {
      var i := 0;
      while i < |e.models|
        invariant 0 <= i <= |e.models|
        invariant modelMap.Keys == old(modelMap).Keys + set m | m in e.models[..i]
        invariant forall m :: m in modelMap ==> modelMap[m] == if m in e.models[..i] then e else old(modelMap)[m]
      {
        modelMap := modelMap[e.models[i] := e];
        i := i + 1;
      }
      assert e.models[..i] == e.models;
    }

    method RegisterProvider(name: string, model: M, models: seq<string>)
      requires Valid()
      modifies this
      ensures Valid() && history == old(history) + [Registration(name, model, models)]
    {
      var entry := Entry(created, name, model, models);
      ghost var h, ps, r := history, providers, Registration(name, model, models);
      var i := 0;
      while i < |providers| && providers[i].name != name
        invariant 0 <= i <= |providers| && forall j :: 0 <= j < i ==> providers[j].name != name
      {
        i := i + 1;
      }
      if i < |providers| {
        ReplaceKeeps(h, initial, ps, r, i);
        var e := providers[i];
        providers := providers[i := entry];
        RemoveModels(e);
      } else {
        AppendKeeps(h, initial, ps, r);
        providers := providers + [entry];
      }
      AddModels(entry);
      created, history := created + 1, history + [r];
      forall m: string ensures IndexValid(history, modelMap, m) {
        assert IndexValid(h, old(modelMap), m);
        RouteAfter(h, r, m);
        if Route(h, m).Some? {
          if i < |ps| {
            RoutedEntry(h, initial, ps, i, m);
          } else {
            assert MadeBy(h, Route(h, m).value) in ps;
          }
        }
      }
    }
  }
}
