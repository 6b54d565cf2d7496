/** The namespace cache object, whose watch-thread methods are steps of module Replication. */
module NamespaceCache {
  import opened Wrappers
  import opened ClusterHistory

  datatype NamespaceInfo = NamespaceInfo(name: string, description: Option<string>)

  /** A namespace object's value is its description annotation. */
  type Description = Option<string>

  /** A list response: objects in server order, and the list's resource version. */
  datatype ListResponse = ListResponse(objects: seq<Object<Description>>, version: Option<nat>)

  /** `_extract_info`: no name or an excluded name gives nothing. */
  function Info(excluded: string -> bool): Extract<Description, NamespaceInfo> {
    (name: string, description: Description) =>
      if name == "" || excluded(name) then None else Some(NamespaceInfo(name, description))
  }

  /** Every named namespace that is not excluded, with the description of its last object. */
  ghost predicate ShowsLast(infos: map<string, NamespaceInfo>, objects: seq<Object<Description>>, excluded: string -> bool) {
    && (forall n :: n in infos <==> n != "" && !excluded(n) && exists o :: o in objects && o.name == Some(n))
    && (forall n, i: nat :: n in infos && LastNamed(objects, i, n) ==> infos[n].name == n && infos[n].description == objects[i].value)
  }

  lemma ListShowsLast(objects: seq<Object<Description>>, excluded: string -> bool)
    ensures ShowsLast(FromList(objects, Info(excluded)), objects, excluded)
  {
    var infos := FromList(objects, Info(excluded));
    forall n, i: nat | n in infos && LastNamed(objects, i, n) ensures infos[n].name == n && infos[n].description == objects[i].value {
      LastIsListed(objects, i, n, Info(excluded));
    }
  }

  class NamespaceCache {
    const excluded: string -> bool
    var namespaces: map<string, NamespaceInfo>
    var resourceVersion: Option<nat>

    function Shown(): Snapshot<NamespaceInfo>
      reads this
    {
      Snapshot(namespaces, resourceVersion)
    }

    constructor (excluded: string -> bool)
      ensures Shown() == Snapshot(map[], None) && this.excluded == excluded
    {
      this.excluded := excluded;
      namespaces := map[];
      resourceVersion := None;
    }

    /** `_refresh_full` with the response in hand. */
    method RefreshFull(response: ListResponse)
      modifies this
      ensures Shown() == Snapshot(FromList(response.objects, Info(excluded)), response.version)
      ensures ShowsLast(namespaces, response.objects, excluded)
    {
      var infos: map<string, NamespaceInfo> := map[];
      for i := 0 to |response.objects|
        invariant infos == FromList(response.objects[..i], Info(excluded))
      {
        var o := response.objects[i];
        assert response.objects[..i + 1][..i] == response.objects[..i];
        if o.name.Some? {
          var info := Info(excluded)(o.name.value, o.value);
          if info.Some? {
            infos := infos[info.value.name := info.value];
          }
        }
      }
      assert response.objects[..|response.objects|] == response.objects;
      namespaces := infos;
      resourceVersion := response.version;
      ListShowsLast(response.objects, excluded);
    }

    method HandleEvent(ev: WatchEvent<Description>)
      modifies this
      ensures Shown() == Handle(old(Shown()), ev, Info(excluded))
      ensures Named(ev.payload) && (ev.kind == ADDED || ev.kind == MODIFIED) ==>
                var n := ev.payload.value.name.value;
                && (n in namespaces <==> !excluded(n))
                && (n in namespaces ==> namespaces[n].name == n && namespaces[n].description == ev.payload.value.value)
    {
      if ev.kind == ERROR {
        resourceVersion := None;
        return;
      }
      if ev.kind == BOOKMARK {
        if ev.payload.Some? && ev.payload.value.version.Some? {
          resourceVersion := ev.payload.value.version;
        }
        return;
      }
      if !Named(ev.payload) {
        return;
      }
      var o := ev.payload.value;
      var name := o.name.value;
      if ev.kind == ADDED || ev.kind == MODIFIED {
        var info := Info(excluded)(name, o.value);
        if info.None? {
          namespaces := namespaces - {name};
        } else {
          namespaces := namespaces[name := info.value];
        }
        resourceVersion := o.version;
      } else if ev.kind == DELETED {
        namespaces := namespaces - {name};
        resourceVersion := o.version;
      } else {
        resourceVersion := None;
      }
    }

    /**
     * The stream loop of `_run`: handles events until the stop flag is seen (before event `stopAt`), the
     * cursor drops, or the stream ends; then the cursor is dropped for the relist.
     */
    method ConsumeStream(events: seq<WatchEvent<Description>>, stopAt: nat)
      requires resourceVersion.Some? && stopAt <= |events|
      modifies this
      ensures namespaces == Replay(old(Shown()), events[..stopAt], Info(excluded)).items
      ensures resourceVersion == None
    {
      var i := 0;
      while i < stopAt
        invariant 0 <= i <= stopAt && resourceVersion.Some?
        invariant Replay(old(Shown()), events[..stopAt], Info(excluded)) == Replay(Shown(), events[i..stopAt], Info(excluded))
      {
        assert events[i..stopAt][0] == events[i] && events[i..stopAt][1..] == events[i + 1..stopAt];
        HandleEvent(events[i]);
        i := i + 1;
        if resourceVersion.None? {
          break;
        }
      }
      resourceVersion := None;
    }

    /** `get_namespace`; `live` is what the filtered LIST would answer. Nothing of the cache changes. */
    method GetNamespace(name: string, live: seq<Object<Description>>) returns (r: Option<NamespaceInfo>)
      ensures name in namespaces ==> r == Some(namespaces[name])
      ensures name !in namespaces && excluded(name) ==> r == None
      ensures name !in namespaces && r.Some? ==> r.value.name == name && !excluded(name)
      ensures name !in namespaces && r.Some? ==> exists o :: o in live && o.name == Some(name) && o.value == r.value.description
      ensures name !in namespaces && !excluded(name) && name != "" && r.None? ==> forall o :: o in live ==> o.name != Some(name)
    {
      if name in namespaces {
        return Some(namespaces[name]);
      }
      if excluded(name) {
        return None;
      }
      for i := 0 to |live|
        invariant name != "" ==> forall j :: 0 <= j < i ==> live[j].name != Some(name)
      {
        var info := if live[i].name.Some? then Info(excluded)(live[i].name.value, live[i].value) else None;
        if info.Some? && info.value.name == name {
          return info;
        }
      }
      return None;
    }
  }
}
