/** The artifact-connection Secret cache object: the same replication, unavailable while listing is forbidden. */
module SecretCache {
  import opened Wrappers
  import opened ClusterHistory

  /** The decoded bucket of a Secret, if it has one. */
  type Bucket = Option<string>

  datatype SecretInfo = SecretInfo(ns: string, bucketUri: Option<string>)

  /** How a list request ends; objects are named by their namespace. */
  datatype ListOutcome = Listed(objects: seq<Object<Bucket>>, version: Option<nat>) | NotFound | Forbidden | Failed

  function InfoOf(ns: string, bucket: Bucket): SecretInfo {
    SecretInfo(ns, if bucket.Some? then Some("s3://" + bucket.value) else None)
  }

  /** The info has the URI of this bucket, or none. */
  predicate HasBucket(info: SecretInfo, ns: string, bucket: Bucket) {
    && info.ns == ns && (bucket.None? ==> info.bucketUri.None?)
    && (bucket.Some? ==> info.bucketUri.Some? && |info.bucketUri.value| == 5 + |bucket.value|
                         && info.bucketUri.value[..5] == "s3://" && info.bucketUri.value[5..] == bucket.value)
  }

  /** One Secret for each namespace that is named, with the bucket of its last object. */
  ghost predicate ShowsLast(secrets: map<string, SecretInfo>, objects: seq<Object<Bucket>>) {
    && (forall ns :: ns in secrets <==> ns != "" && exists o :: o in objects && o.name == Some(ns))
    && (forall ns, i: nat :: ns in secrets && LastNamed(objects, i, ns) ==> HasBucket(secrets[ns], ns, objects[i].value))
  }

  lemma ListShowsLast(objects: seq<Object<Bucket>>)
    ensures ShowsLast(FromList(objects, INFO), objects)
  {
    var secrets := FromList(objects, INFO);
    forall ns, i: nat | ns in secrets && LastNamed(objects, i, ns) ensures HasBucket(secrets[ns], ns, objects[i].value) {
      LastIsListed(objects, i, ns, INFO);
    }
  }

  const INFO: Extract<Bucket, SecretInfo> := (ns: string, bucket: Bucket) => if ns == "" then None else Some(InfoOf(ns, bucket))

  class SecretCache {
    var secrets: map<string, SecretInfo>
    var resourceVersion: Option<nat>
    var available: bool

    function Shown(): Snapshot<SecretInfo>
      reads this
    {
      Snapshot(secrets, resourceVersion)
    }

    constructor ()
      ensures Shown() == Snapshot(map[], None) && available
    {
      secrets := map[];
      resourceVersion := None;
      available := true;
    }

    /** `_refresh_full`: only a refusal makes the cache unavailable; other failures are raised and change nothing. */
    method RefreshFull(outcome: ListOutcome) returns (ok: bool)
      modifies this
      ensures ok <==> outcome.Listed? || outcome.Forbidden?
      ensures outcome.Listed? ==> Shown() == Snapshot(FromList(outcome.objects, INFO), outcome.version) && available
      ensures outcome.Listed? ==> ShowsLast(secrets, outcome.objects)
      ensures outcome.Forbidden? ==> Shown() == Snapshot(map[], None) && !available
      ensures !ok ==> Shown() == old(Shown()) && available == old(available)
    {
      match outcome {
        case Forbidden =>
          available := false;
          secrets := map[];
          resourceVersion := None;
          return true;
        case Listed(objects, version) =>
          secrets := map[];
          for i := 0 to |objects|
            invariant secrets == FromList(objects[..i], INFO)
          {
            assert objects[..i + 1][..i] == objects[..i];
            if Named(Some(objects[i])) {
              secrets := secrets[objects[i].name.value := InfoOf(objects[i].name.value, objects[i].value)];
            }
          }
          assert objects[..|objects|] == objects;
          resourceVersion := version;
          available := true;
          ListShowsLast(objects);
          return true;
        case _ =>
          return false;
      }
    }

    /** `_handle_event`. */
    method HandleEvent(ev: WatchEvent<Bucket>)
      modifies this
      ensures Shown() == Handle(old(Shown()), ev, INFO) && available == old(available)
      ensures Named(ev.payload) && (ev.kind == ADDED || ev.kind == MODIFIED) ==>
                var ns := ev.payload.value.name.value; ns in secrets && HasBucket(secrets[ns], ns, ev.payload.value.value)
    {
      if ev.kind == ERROR {
        resourceVersion := None;
      } else if ev.kind == BOOKMARK {
        if ev.payload.Some? && ev.payload.value.version.Some? {
          resourceVersion := ev.payload.value.version;
        }
      } else if Named(ev.payload) {
        var o := ev.payload.value;
        var ns := o.name.value;
        if ev.kind == ADDED || ev.kind == MODIFIED {
          secrets := secrets[ns := InfoOf(ns, o.value)];
          resourceVersion := o.version;
        } else if ev.kind == DELETED {
          secrets := secrets - {ns};
          resourceVersion := o.version;
        } else {
          resourceVersion := None;
        }
      }
    }

    /**
     * `get_secret`: it changes nothing. Nothing is answered only while the cache is unavailable, or when the
     * live lookup finds no Secret or no namespace; a miss is never taken from the snapshot alone.
     */
    method GetSecret(ns: string, lookup: ListOutcome) returns (r: Result<Option<SecretInfo>, ()>)
      requires ns != ""
      ensures available && ns in secrets ==> r == Ok(Some(secrets[ns]))
      ensures r == Ok(None) <==>
                || !available
                || (ns !in secrets && (lookup.NotFound? || (lookup.Listed? && forall o :: o in lookup.objects ==> o.name != Some(ns))))
      ensures r.Err? <==> available && ns !in secrets && (lookup.Forbidden? || lookup.Failed?)
      ensures r.Ok? && r.value.Some? && ns !in secrets ==>
                lookup.Listed? && exists o :: o in lookup.objects && o.name == Some(ns) && HasBucket(r.value.value, ns, o.value)
    {
      if !available {
        return Ok(None);
      }
      if ns in secrets {
        return Ok(Some(secrets[ns]));
      }
      match lookup {
        case NotFound => return Ok(None);
        case Listed(objects, _) =>
          for i := 0 to |objects|
            invariant forall j :: 0 <= j < i ==> objects[j].name != Some(ns)
          {
            if objects[i].name == Some(ns) {
              return Ok(Some(InfoOf(ns, objects[i].value)));
            }
          }
          return Ok(None);
        case _ => return Err(());
      }
    }
  }
}
