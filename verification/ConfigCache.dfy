/** The MLflowConfig cache object: the same replication, for an optional resource that requests may reload. */
module ConfigCache {
  import opened Wrappers
  import opened ClusterHistory

  /** The two string fields of a config's spec; anything else in them reads as absent. */
  datatype Spec = Spec(artifactRootPath: Option<string>, artifactRootSecret: Option<string>)

  datatype MlflowConfigInfo = MlflowConfigInfo(ns: string, artifactRootPath: Option<string>, artifactRootSecret: Option<string>)

  /** How a list request ends; objects are named by their namespace. */
  datatype ListOutcome = Listed(objects: seq<Object<Spec>>, version: Option<nat>) | NotFound | Forbidden | Failed

  function InfoOf(ns: string, spec: Spec): MlflowConfigInfo {
    MlflowConfigInfo(ns, spec.artifactRootPath, spec.artifactRootSecret)
  }

  /** The info has the fields of this object. */
  predicate HasFields(info: MlflowConfigInfo, ns: string, spec: Spec) {
    info.ns == ns && info.artifactRootPath == spec.artifactRootPath && info.artifactRootSecret == spec.artifactRootSecret
  }

  /** One config for each namespace that is named, with the fields of its last object. */
  ghost predicate ShowsLast(configs: map<string, MlflowConfigInfo>, objects: seq<Object<Spec>>) {
    && (forall ns :: ns in configs <==> ns != "" && exists o :: o in objects && o.name == Some(ns))
    && (forall ns, i: nat :: ns in configs && LastNamed(objects, i, ns) ==> HasFields(configs[ns], ns, objects[i].value))
  }

  /** The answer has the fields of the last object of the namespace. */
  ghost predicate AnswersLast(info: MlflowConfigInfo, ns: string, objects: seq<Object<Spec>>) {
    exists i: nat :: LastNamed(objects, i, ns) && HasFields(info, ns, objects[i].value)
  }

  lemma {:induction false} SomeIsLast(objects: seq<Object<Spec>>, ns: string) returns (i: nat)
    requires exists o :: o in objects && o.name == Some(ns)
    ensures LastNamed(objects, i, ns)
  {
    i := |objects| - 1;
    if objects[i].name != Some(ns) {
      i := SomeIsLast(objects[..i], ns);
    }
  }

  lemma ListAnswersLast(objects: seq<Object<Spec>>, ns: string)
    requires ns in FromList(objects, INFO)
    ensures AnswersLast(FromList(objects, INFO)[ns], ns, objects)
  {
    ListShowsLast(objects);
    var i := SomeIsLast(objects, ns);
  }

  lemma ListShowsLast(objects: seq<Object<Spec>>)
    ensures ShowsLast(FromList(objects, INFO), objects)
  {
    var configs := FromList(objects, INFO);
    forall ns, i: nat | ns in configs && LastNamed(objects, i, ns) ensures HasFields(configs[ns], ns, objects[i].value) {
      LastIsListed(objects, i, ns, INFO);
    }
  }

  const INFO: Extract<Spec, MlflowConfigInfo> := (ns: string, spec: Spec) => if ns == "" then None else Some(InfoOf(ns, spec))

  class MlflowConfigCache {
    var configs: map<string, MlflowConfigInfo>
    var resourceVersion: Option<nat>
    var crdAvailable: bool
    var crdMissingLogged: bool

    function Shown(): Snapshot<MlflowConfigInfo>
      reads this
    {
      Snapshot(configs, resourceVersion)
    }

    constructor ()
      ensures Shown() == Snapshot(map[], None) && crdAvailable && !crdMissingLogged
    {
      configs := map[];
      resourceVersion := None;
      crdAvailable := true;
      crdMissingLogged := false;
    }

    /** `_refresh_full` with the list outcome in hand; `Err` is the raised lookup error. */
    method RefreshFull(outcome: ListOutcome, raiseOnError: bool) returns (r: Result<bool, ()>)
      modifies this
      ensures r == match outcome
                   case Listed(_, _) => Ok(true)
                   case Failed => if raiseOnError then Err(()) else Ok(false)
                   case _ => Ok(false)
      ensures outcome.Listed? ==> Shown() == Snapshot(FromList(outcome.objects, INFO), outcome.version) && crdAvailable && !crdMissingLogged
      ensures outcome.Listed? ==> ShowsLast(configs, outcome.objects)
      ensures outcome.NotFound? || outcome.Forbidden? ==> Shown() == Snapshot(map[], None) && !crdAvailable
      ensures outcome.Failed? ==> Shown() == old(Shown()) && crdAvailable == old(crdAvailable)
    {
      match outcome {
        case NotFound =>
          crdMissingLogged := true;
          crdAvailable := false;
          configs := map[];
          resourceVersion := None;
          return Ok(false);
        case Forbidden =>
          crdAvailable := false;
          configs := map[];
          resourceVersion := None;
          return Ok(false);
        case Failed =>
          return if raiseOnError then Err(()) else Ok(false);
        case Listed(objects, version) =>
          configs := map[];
          for i := 0 to |objects|
            invariant configs == FromList(objects[..i], INFO)
          {
            assert objects[..i + 1][..i] == objects[..i];
            if Named(Some(objects[i])) {
              configs := configs[objects[i].name.value := InfoOf(objects[i].name.value, objects[i].value)];
            }
          }
          assert objects[..|objects|] == objects;
          resourceVersion := version;
          crdAvailable := true;
          crdMissingLogged := false;
          ListShowsLast(objects);
          return Ok(true);
      }
    }

    /** `_handle_event`. */
    method HandleEvent(ev: WatchEvent<Spec>)
      modifies this
      ensures Shown() == Handle(old(Shown()), ev, INFO)
      ensures Named(ev.payload) && (ev.kind == ADDED || ev.kind == MODIFIED) ==>
                var ns := ev.payload.value.name.value; ns in configs && HasFields(configs[ns], ns, ev.payload.value.value)
      ensures crdAvailable == old(crdAvailable)
    {
      if ev.kind == ERROR {
        resourceVersion := None;
      } else if ev.kind == BOOKMARK {
        if ev.payload.Some? && ev.payload.value.version.Some? {
          resourceVersion := ev.payload.value.version;
        }
      } else if Named(ev.payload) {
        var o := ev.payload.value;
        var ns := o.name.value;
        if ev.kind == ADDED || ev.kind == MODIFIED {
          configs := configs[ns := InfoOf(ns, o.value)];
          resourceVersion := o.version;
        } else if ev.kind == DELETED {
          configs := configs - {ns};
          resourceVersion := o.version;
        } else {
          resourceVersion := None;
        }
      }
    }

    /**
     * `get_config`, with the outcomes its reload and its live lookup would have. It answers nothing only if
     * the resource is missing or may not be listed, or the live state has no config for the namespace; and
     * while the resource is available it leaves the snapshot and the cursor alone.
     */
    method GetConfig(ns: string, reload: ListOutcome, lookup: ListOutcome) returns (r: Result<Option<MlflowConfigInfo>, ()>)
      requires ns != ""
      modifies this
      ensures old(crdAvailable) || ns in old(configs) ==> Shown() == old(Shown()) && crdAvailable == old(crdAvailable)
      ensures ns in old(configs) ==> r == Ok(Some(old(configs)[ns]))
      ensures r == Ok(None) ==>
                || (!old(crdAvailable) && (reload.NotFound? || reload.Forbidden?))
                || lookup.NotFound?
                || (lookup.Listed? && forall o :: o in lookup.objects ==> o.name != Some(ns))
      ensures r.Ok? && r.value.Some? && ns !in old(configs) ==>
                || (!old(crdAvailable) && reload.Listed? && AnswersLast(r.value.value, ns, reload.objects))
                || (lookup.Listed? && AnswersLast(r.value.value, ns, lookup.objects))
      ensures r.Err? ==> (!old(crdAvailable) && reload.Failed?) || lookup.Forbidden? || lookup.Failed?
    {
      if ns in configs {
        return Ok(Some(configs[ns]));
      }
      if !crdAvailable {
        var reloaded := RefreshFull(reload, true);
        if reloaded.Err? {
          return Err(());
        }
        if !crdAvailable {
          return Ok(None);
        }
        if ns in configs {
          ListAnswersLast(reload.objects, ns);
          return Ok(Some(configs[ns]));
        }
      }
      match lookup {
        case NotFound => return Ok(None);
        case Listed(objects, _) =>
          var found := FromList(objects, INFO);
          if ns in found {
            ListAnswersLast(objects, ns);
          }
          return Ok(if ns in found then Some(found[ns]) else None);
        case _ => return Err(());
      }
    }
  }
}
