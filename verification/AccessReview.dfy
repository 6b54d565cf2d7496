/**
 * Cached access reviews (`KubernetesAuthorizer.is_allowed`): the identity string that is hashed into the
 * cache key, the key itself, and the claim that a cached answer is one the cluster gave to the same question.
 */
module AccessReview {
  import opened Wrappers
  import opened Strings
  import opened TimedEntries
  import opened ExpiringCache

  const NUL: char := '\0'

  datatype Mode = SelfReview | SubjectReview

  datatype Identity = Identity(token: Option<string>, user: Option<string>, groups: seq<string>)

  /** Who a review is about. The order of groups never matters to the cluster. */
  datatype Subject = TokenSubject(token: string) | UserSubject(user: string, groups: multiset<string>)

  // ----- Parsing the forwarded identity -----

  predicate StandsAt(s: string, sep: string, i: nat) {
    i + |sep| <= |s| && s[i..i + |sep|] == sep
  }

  /** The first place from here on where the separator stands; the end of the text if there is none. */
  function Found(s: string, sep: string, from: nat): (at: nat)
    requires from <= |s| && sep != ""
    ensures from <= at <= |s| && (at < |s| ==> StandsAt(s, sep, at))
    ensures forall i :: from <= i < at ==> !StandsAt(s, sep, i)
    decreases |s| - from
  {
    if from == |s| || StandsAt(s, sep, from) then from else Found(s, sep, from + 1)
  }

  /** `str.split`: at every separator from the left, none overlapping another. */
  function SplitOn(s: string, sep: string): (parts: seq<string>)
    requires sep != ""
    ensures |parts| >= 1
  {
    var at := Found(s, sep, 0);
    if at == |s| then [s] else [s[..at]] + SplitOn(s[at + |sep|..], sep)
  }

  function JoinOn(parts: seq<string>, sep: string): string {
    if parts == [] then "" else if |parts| == 1 then parts[0] else parts[0] + sep + JoinOn(parts[1..], sep)
  }

  /** The separator is nowhere in the text. */
  ghost predicate Free(p: string, sep: string) {
    forall a, b :: p != a + sep + b
  }

  /** Followed by a separator, the text has none before that. */
  ghost predicate EndsFirst(p: string, sep: string) {
    forall a, b :: p + sep == a + sep + b ==> b == ""
  }

  /** Each part ends at the first separator after it, and the last holds none. */
  ghost predicate Apart(parts: seq<string>, sep: string) {
    parts != [] && Free(parts[|parts| - 1], sep) && forall i :: 0 <= i < |parts| - 1 ==> EndsFirst(parts[i], sep)
  }

  /** The parts end at the first separators and hold none, and the separator between them gives the text back. */
  lemma {:induction false} SplittingIsExact(s: string, sep: string)
    requires sep != ""
    ensures JoinOn(SplitOn(s, sep), sep) == s && Apart(SplitOn(s, sep), sep)
    decreases |s|
  {
    var at := Found(s, sep, 0);
    if at < |s| {
      var rest := s[at + |sep|..];
      SplittingIsExact(rest, sep);
      HeadEndsFirst(s, sep, at);
      OnePartMore(s, s[..at], SplitOn(rest, sep), rest, sep);
    } else {
      WholeIsFree(s, sep);
      assert JoinOn([s], sep) == s;
    }
  }

  lemma OnePartMore(s: string, head: string, parts: seq<string>, rest: string, sep: string)
    requires parts != [] && JoinOn(parts, sep) == rest && Apart(parts, sep) && EndsFirst(head, sep)
    requires |head| + |sep| <= |s| && s[..|head|] == head && StandsAt(s, sep, |head|) && s[|head| + |sep|..] == rest
    ensures JoinOn([head] + parts, sep) == s && Apart([head] + parts, sep)
  {
    JoinOnOneMore(head, parts, sep);
    assert s == head + sep + rest;
  }

  lemma JoinOnOneMore(head: string, parts: seq<string>, sep: string)
    requires parts != []
    ensures JoinOn([head] + parts, sep) == head + sep + JoinOn(parts, sep)
  {
    assert ([head] + parts)[1..] == parts;
  }

  lemma WholeIsFree(s: string, sep: string)
    requires sep != "" && Found(s, sep, 0) == |s|
    ensures Free(s, sep)
  {
    forall a, b ensures s != a + sep + b {
      if s == a + sep + b {
        assert s[|a|..|a| + |sep|] == sep;
        assert StandsAt(s, sep, |a|);
      }
    }
  }

  lemma HeadEndsFirst(s: string, sep: string, at: nat)
    requires sep != "" && at == Found(s, sep, 0) < |s|
    ensures EndsFirst(s[..at], sep)
  {
    assert s[..at] + sep == s[..at + |sep|];
    forall a, b | s[..at] + sep == a + sep + b ensures b == "" {
      assert (a + sep + b)[|a|..|a| + |sep|] == sep;
      assert s[|a|..|a| + |sep|] == s[..at + |sep|][|a|..|a| + |sep|];
      assert StandsAt(s, sep, |a|);
    }
  }

  lemma {:induction false} SplittingAddsNoChars(s: string, sep: string, c: char)
    requires sep != "" && c !in s
    ensures forall p :: p in SplitOn(s, sep) ==> c !in p
    decreases |s|
  {
    var at := Found(s, sep, 0);
    if at < |s| {
      SplittingAddsNoChars(s[at + |sep|..], sep, c);
    }
  }

  /** The header as it is, or split at the separator if there is one. */
  function HeaderTokens(header: Option<string>, separator: string): seq<string> {
    if header.None? || header.value == "" then []
    else if separator == "" then [header.value]
    else SplitOn(header.value, separator)
  }

  /** Stripped, in order, without the empty ones. */
  function Cleaned(tokens: seq<string>): (r: seq<string>)
    ensures forall g :: g in r <==> exists t :: t in tokens && Strip(t) == g && g != ""
    ensures |r| <= |tokens|
  {
    if tokens == [] then []
    else
      var front, last := Cleaned(tokens[..|tokens| - 1]), Strip(tokens[|tokens| - 1]);
      if last == "" then front else front + [last]
  }

  /** Cleaning goes piece by piece. */
  lemma {:induction false} CleanedInOrder(a: seq<string>, b: seq<string>)
    ensures Cleaned(a + b) == Cleaned(a) + Cleaned(b)
  {
    if b == [] {
      assert a + b == a && Cleaned(b) == [];
      assert Cleaned(a) + [] == Cleaned(a);
    } else {
      var front, last := b[..|b| - 1], b[|b| - 1];
      CleanedInOrder(a, front);
      CleanedOneMore(a + front, last);
      CleanedOneMore(front, last);
      assert front + [last] == b;
      Regroup(a, front, [last]);
      Regroup(Cleaned(a), Cleaned(front), if Strip(last) == "" then [] else [Strip(last)]);
    }
  }

  lemma Regroup<T>(a: seq<T>, b: seq<T>, c: seq<T>)
    ensures a + b + c == a + (b + c)
  {
  }

  lemma CleanedOneMore(front: seq<string>, last: string)
    ensures Cleaned(front + [last]) == Cleaned(front) + if Strip(last) == "" then [] else [Strip(last)]
  {
    assert (front + [last])[..|front|] == front;
  }

  /** The groups of a header: its parts between separators, or all of it without one, stripped, without the empty ones. */
  ghost predicate GroupsOf(header: string, separator: string, groups: seq<string>) {
    if separator == "" then groups == Cleaned([header])
    else exists parts :: JoinOn(parts, separator) == header && Apart(parts, separator) && groups == Cleaned(parts)
  }

  /** `_parse_remote_groups`. */
  method ParseGroups(header: Option<string>, separator: string) returns (groups: seq<string>)
    ensures header.None? || header.value == "" ==> groups == []
    ensures header.Some? && header.value != "" ==> GroupsOf(header.value, separator, groups)
    ensures header.None? || NUL !in header.value ==> WellFormedGroups(groups)
  {
    var tokens := HeaderTokens(header, separator);
    groups := [];
    for i := 0 to |tokens|
      invariant groups == Cleaned(tokens[..i])
    {
      assert tokens[..i + 1][..i] == tokens[..i];
      if Strip(tokens[i]) != "" {
        groups := groups + [Strip(tokens[i])];
      }
    }
    assert tokens[..|tokens|] == tokens;
    if header.Some? && separator != "" {
      SplittingIsExact(header.value, separator);
    }
    if header.Some? && NUL !in header.value && separator != "" {
      SplittingAddsNoChars(header.value, separator, NUL);
    }
  }

  // ----- The identity string -----

  predicate WellFormedGroups(groups: seq<string>) {
    forall g :: g in groups ==> g != "" && NUL !in g
  }

  /** A NUL-free user already stripped, and non-empty NUL-free groups. */
  predicate WellFormed(id: Identity) {
    (id.user.Some? ==> NUL !in id.user.value && Strip(id.user.value) == id.user.value) && WellFormedGroups(id.groups)
  }

  /** What `subject_hash` hashes for a user: the user, then the sorted groups, all separated by NUL. */
  function Serialize(user: string, groups: seq<string>): string {
    user + [NUL] + Join(Sort(groups), NUL)
  }

  /** The serialized groups can be read back; no groups and one group never look alike. */
  lemma GroupsReadBack(groups: seq<string>)
    requires WellFormedGroups(groups)
    ensures Split(Join(Sort(groups), NUL), NUL) == if groups == [] then [""] else Sort(groups)
    ensures groups != [] ==> Sort(groups) != [] && Sort(groups)[0] != ""
  {
    var sorted := Sort(groups);
    assert |sorted| == |multiset(sorted)| == |multiset(groups)| == |groups|;
    forall g | g in sorted ensures g != "" && NUL !in g {
      assert g in multiset(sorted);
      assert g in multiset(groups);
      assert g in groups;
    }
    if groups != [] {
      assert sorted[0] in sorted;
      SplitOfJoin(sorted, NUL);
    }
  }

  /** The identity string determines the user and the groups up to order, and nothing more. */
  lemma SerializeIsInjectiveUpToOrder(u1: string, g1: seq<string>, u2: string, g2: seq<string>)
    requires NUL !in u1 && NUL !in u2 && WellFormedGroups(g1) && WellFormedGroups(g2)
    ensures Serialize(u1, g1) == Serialize(u2, g2) <==> u1 == u2 && multiset(g1) == multiset(g2)
  {
    SortDependsOnElements(g1, g2);
    if Serialize(u1, g1) == Serialize(u2, g2) {
      PartsOfIdentity(u1, g1);
      PartsOfIdentity(u2, g2);
      var p1, p2 := Split(Join(Sort(g1), NUL), NUL), Split(Join(Sort(g2), NUL), NUL);
      assert ([u1] + p1)[0] == u1 && ([u2] + p2)[0] == u2;
      assert ([u1] + p1)[1..] == p1 && ([u2] + p2)[1..] == p2;
      GroupsReadBack(g1);
      GroupsReadBack(g2);
      if g1 == [] || g2 == [] {
        assert g1 == g2 == [];
      }
    }
  }

  lemma PartsOfIdentity(user: string, groups: seq<string>)
    requires NUL !in user
    ensures Split(Serialize(user, groups), NUL) == [user] + Split(Join(Sort(groups), NUL), NUL)
  {
    SplitAtSeparator(user, Join(Sort(groups), NUL), NUL);
    SplitOfPlain(user, NUL);
  }

  /** Both conditions are needed: a NUL inside the user, or an empty group, makes two identities collide. */
  lemma SerializeCollidesOtherwise()
    ensures Serialize("a" + [NUL] + "b", ["c"]) == Serialize("a", ["b", "c"])
    ensures Serialize("a", [""]) == Serialize("a", [])
  {
    var bc: seq<string> := ["b", "c"];
    assert bc[1..] == ["c"];
    var c: seq<string> := ["c"];
    assert c[1..] == [];
    assert Sort(c) == c;
    assert Sort(bc) == bc;
    assert Join(bc, NUL) == "b" + [NUL] + "c";
    var e: seq<string> := [""];
    assert e[1..] == [];
    assert Sort(e) == e;
  }

  // ----- Cache keys -----

  /** The bearer token, or the stripped user, is required. */
  function SubjectOf(id: Identity, mode: Mode): Result<Subject, ()> {
    match mode
    case SelfReview => if id.token.Some? && id.token.value != "" then Ok(TokenSubject(id.token.value)) else Err(())
    case SubjectReview =>
      if id.user.Some? && Strip(id.user.value) != "" then Ok(UserSubject(id.user.value, multiset(id.groups))) else Err(())
  }

  /** The hash function: only its injectivity is used. */
  type Hash = string -> string

  ghost predicate Injective(hash: Hash) {
    forall a, b :: hash(a) == hash(b) ==> a == b
  }

  /** `subject_hash`. */
  function SubjectHash(id: Identity, mode: Mode, hash: Hash): (r: Result<string, ()>)
    ensures r.Ok? <==> SubjectOf(id, mode).Ok?
  {
    match mode
    case SelfReview => if id.token.Some? && id.token.value != "" then Ok(hash(id.token.value)) else Err(())
    case SubjectReview =>
      var user := if id.user.Some? then Strip(id.user.value) else "";
      if user == "" then Err(()) else Ok(hash(Serialize(user, id.groups)))
  }

  /** Equal hashes mean the same subject: same token, or same user with the same groups in any order. */
  lemma SubjectHashIsExact(a: Identity, b: Identity, mode: Mode, hash: Hash)
    requires Injective(hash) && WellFormed(a) && WellFormed(b)
    requires SubjectOf(a, mode).Ok? && SubjectOf(b, mode).Ok?
    ensures SubjectHash(a, mode, hash) == SubjectHash(b, mode, hash) <==> SubjectOf(a, mode) == SubjectOf(b, mode)
  {
    if mode == SubjectReview {
      SerializeIsInjectiveUpToOrder(a.user.value, a.groups, b.user.value, b.groups);
    }
  }

  /** A question as the caller puts it. */
  datatype Request = Request(id: Identity, resourceType: string, verb: string, ns: string, subresource: Option<string>, name: Option<string>)

  /** A question as the cluster sees it. */
  datatype Query = Query(subject: Subject, ns: string, resource: string, subresource: Option<string>, verb: string, name: Option<string>)

  datatype CacheKey = CacheKey(identity: string, ns: string, resource: string, subresource: Option<string>, verb: string, name: Option<string>)

  /** `_effective_resource_name_for_access_review`. */
  function EffectiveName(verb: string, subresource: Option<string>, name: Option<string>): Option<string> {
    if name.None? || verb == "watch" || (verb == "create" && subresource.None?) then None else name
  }

  function WithoutUnderscores(s: string): string {
    if s == "" then "" else if s[0] == '_' then WithoutUnderscores(s[1..]) else [s[0]] + WithoutUnderscores(s[1..])
  }

  function QueryOf(q: Request, mode: Mode): Query
    requires SubjectOf(q.id, mode).Ok?
  {
    Query(SubjectOf(q.id, mode).value, q.ns, WithoutUnderscores(q.resourceType), q.subresource, q.verb, EffectiveName(q.verb, q.subresource, q.name))
  }

  function KeyOf(q: Request, mode: Mode, hash: Hash): CacheKey
    requires SubjectOf(q.id, mode).Ok?
  {
    CacheKey(SubjectHash(q.id, mode, hash).value, q.ns, WithoutUnderscores(q.resourceType), q.subresource, q.verb,
             EffectiveName(q.verb, q.subresource, q.name))
  }

  /** No identity to ask for: no token, or no user but white space. */
  predicate Anonymous(id: Identity, mode: Mode) {
    if mode == SelfReview then id.token == None || id.token == Some("") else id.user == None || Strip(id.user.value) == ""
  }

  function Concat(parts: seq<string>): string {
    if parts == [] then "" else parts[0] + Concat(parts[1..])
  }

  /** Without its underscores a text is the pieces between them. */
  lemma {:induction false} UnderscoresGo(s: string)
    ensures WithoutUnderscores(s) == Concat(Split(s, '_'))
  {
    if s == "" {
      assert [""][1..] == [];
    } else {
      var rest := Split(s[1..], '_');
      UnderscoresGo(s[1..]);
      assert ([""] + rest)[1..] == rest && ([[s[0]] + rest[0]] + rest[1..])[1..] == rest[1..];
    }
  }

  /** The question that the caller's request puts: of this subject, in this namespace, about this resource and name. */
  ghost predicate Puts(q: Request, mode: Mode, question: Query) {
    && !Anonymous(q.id, mode)
    && (if mode == SelfReview then Some(question.subject) == Some(TokenSubject(q.id.token.value))
        else question.subject == UserSubject(q.id.user.value, multiset(q.id.groups)))
    && question.ns == q.ns && question.verb == q.verb && question.subresource == q.subresource
    && question.resource == Concat(Split(q.resourceType, '_'))
    && (if NameCounts(q) then question.name == q.name else question.name == None)
  }

  /** A review by name makes sense but for watching, and for creating the resource itself. */
  predicate NameCounts(q: Request) {
    q.verb != "watch" && (q.verb != "create" || q.subresource != None)
  }

  lemma AnonymousHasNoSubject(id: Identity, mode: Mode)
    ensures SubjectOf(id, mode).Err? <==> Anonymous(id, mode)
  {
  }

  /** What is asked is what the caller put. */
  lemma QuestionIsTheCallers(q: Request, mode: Mode)
    requires SubjectOf(q.id, mode).Ok?
    ensures Puts(q, mode, QueryOf(q, mode))
  {
    UnderscoresGo(q.resourceType);
  }

  /** Requests that differ in nothing but the name share a key exactly if the name does not count. */
  lemma NamesAreToldApart(q: Request, name: Option<string>, mode: Mode, hash: Hash)
    requires SubjectOf(q.id, mode).Ok? && name != q.name
    ensures KeyOf(q, mode, hash) == KeyOf(q.(name := name), mode, hash) <==> !NameCounts(q)
    ensures QueryOf(q, mode) == QueryOf(q.(name := name), mode) <==> !NameCounts(q)
  {
  }

  /** Two requests share a cache key exactly if they put the same question to the cluster. */
  lemma KeysIdentifyQueries(a: Request, b: Request, mode: Mode, hash: Hash)
    requires Injective(hash) && WellFormed(a.id) && WellFormed(b.id)
    requires SubjectOf(a.id, mode).Ok? && SubjectOf(b.id, mode).Ok?
    ensures KeyOf(a, mode, hash) == KeyOf(b, mode, hash) <==> QueryOf(a, mode) == QueryOf(b, mode)
  {
    SubjectHashIsExact(a.id, b.id, mode, hash);
  }

  // ----- is_allowed -----

  /** The cluster's answer to a question at a time, or a failed review. */
  type Oracle = (Query, Time) -> Result<bool, ()>

  /** The cluster gave this answer to some request with this key, no later than `by`. */
  ghost predicate Genuine(key: CacheKey, answer: bool, until: Time, mode: Mode, hash: Hash, oracle: Oracle) {
    exists q: Request, at: Time :: WellFormed(q.id) && SubjectOf(q.id, mode).Ok? && KeyOf(q, mode, hash) == key
      && at <= until && oracle(QueryOf(q, mode), at) == Ok(answer)
  }

  /** Said of one request's own question. */
  ghost predicate Answered(q: Query, answer: bool, until: Time, oracle: Oracle) {
    exists at: Time :: at <= until && oracle(q, at) == Ok(answer)
  }

  lemma GenuineAnswersTheQuestion(q: Request, answer: bool, until: Time, mode: Mode, hash: Hash, oracle: Oracle)
    requires Injective(hash) && WellFormed(q.id) && SubjectOf(q.id, mode).Ok?
    requires Genuine(KeyOf(q, mode, hash), answer, until, mode, hash, oracle)
    ensures Answered(QueryOf(q, mode), answer, until, oracle)
  {
    var p: Request, at: Time :| WellFormed(p.id) && SubjectOf(p.id, mode).Ok? && KeyOf(p, mode, hash) == KeyOf(q, mode, hash)
                                && at <= until && oracle(QueryOf(p, mode), at) == Ok(answer);
    KeysIdentifyQueries(p, q, mode, hash);
  }

  /** Every entry was stored by `now`, with an answer the cluster gave before it was stored. */
  ghost predicate AllGenuine(es: seq<Entry<CacheKey, bool>>, ttl: Time, now: Time, mode: Mode, hash: Hash, oracle: Oracle) {
    forall e :: e in es ==> e.expires - ttl <= now && Genuine(e.key, e.value, e.expires - ttl, mode, hash, oracle)
  }

  lemma OneMoreGenuine(es: seq<Entry<CacheKey, bool>>, r: seq<Entry<CacheKey, bool>>, e: Entry<CacheKey, bool>, ttl: Time, earlier: Time, now: Time,
                       mode: Mode, hash: Hash, oracle: Oracle)
    requires earlier <= now && e.expires == now + ttl && forall d :: d in r ==> d in es || d == e
    requires AllGenuine(es, ttl, earlier, mode, hash, oracle) && Genuine(e.key, e.value, now, mode, hash, oracle)
    ensures AllGenuine(r, ttl, now, mode, hash, oracle)
  {
  }

  class KubernetesAuthorizer {
    const cache: ExpiringCache<CacheKey, bool>
    const mode: Mode
    const hash: Hash

    constructor (ttl: Time, mode: Mode, hash: Hash)
      ensures cache.Valid() && cache.entries == [] && cache.ttl == ttl && cache.maxEntries == 10_000 && this.mode == mode && this.hash == hash && fresh(cache)
    {
      cache := new ExpiringCache<CacheKey, bool>(ttl, 10_000);
      this.mode := mode;
      this.hash := hash;
    }

    /** By time `now`, every cached answer was stored, and was given by the cluster before that. */
    ghost predicate Trustworthy(oracle: Oracle, now: Time)
      reads this, cache
    {
      cache.Valid() && AllGenuine(cache.entries, cache.ttl, now, mode, hash, oracle)
    }

    /**
     * `is_allowed`, with the clock read at the lookup, the review and the store. Every answer is one the
     * cluster gave to exactly this question, and a cached one was stored less than one TTL ago. Without an
     * identity or on a failed review there is no answer.
     */
    method IsAllowed(q: Request, oracle: Oracle, looked: Time, reviewed: Time, stored: Time) returns (r: Result<bool, ()>)
      requires Injective(hash) && WellFormed(q.id) && looked <= reviewed <= stored
      requires Trustworthy(oracle, looked)
      modifies cache
      ensures Trustworthy(oracle, stored)
      ensures Anonymous(q.id, mode) ==> r.Err? && cache.entries == old(cache.entries)
      ensures !Anonymous(q.id, mode) ==> SubjectOf(q.id, mode).Ok? && Puts(q, mode, QueryOf(q, mode))
      ensures !Anonymous(q.id, mode) ==>
                || r == oracle(QueryOf(q, mode), reviewed)
                || (r.Ok? && exists at: Time :: at <= looked < at + cache.ttl && Answered(QueryOf(q, mode), r.value, at, oracle))
    {
      AnonymousHasNoSubject(q.id, mode);
      var subject := SubjectHash(q.id, mode, hash);
      if subject.Err? {
        return Err(());
      }
      QuestionIsTheCallers(q, mode);
      var key := KeyOf(q, mode, hash);
      var cached := cache.Get(key, looked);
      if cached.Some? {
        ghost var e := Find(old(cache.entries), key).value;
        assert e in old(cache.entries);
        GenuineAnswersTheQuestion(q, e.value, e.expires - cache.ttl, mode, hash, oracle);
        return Ok(cached.value);
      }
      r := oracle(QueryOf(q, mode), reviewed);
      if r.Ok? {
        Remember(q, r.value, oracle, looked, reviewed, stored);
      }
    }

    /** The store of a fresh answer. */
    method Remember(q: Request, answer: bool, ghost oracle: Oracle, ghost looked: Time, ghost reviewed: Time, stored: Time)
      requires looked <= reviewed <= stored && WellFormed(q.id) && SubjectOf(q.id, mode).Ok?
      requires Trustworthy(oracle, looked) && oracle(QueryOf(q, mode), reviewed) == Ok(answer)
      modifies cache
      ensures Trustworthy(oracle, stored)
    {
      var key := KeyOf(q, mode, hash);
      assert Genuine(key, answer, stored, mode, hash, oracle);
      ghost var before := cache.entries;
      InsertAddsOne(before, key, answer, stored, cache.ttl, cache.maxEntries);
      cache.Set(key, answer, stored);
      OneMoreGenuine(before, cache.entries, Entry(key, answer, stored + cache.ttl), cache.ttl, looked, stored, mode, hash, oracle);
    }
  }

  /** Every answer any thread stores is one the cluster gave before. */
  ghost predicate StoresGenuineAnswers(history: seq<Event<CacheKey, bool>>, mode: Mode, hash: Hash, oracle: Oracle) {
    forall i :: 0 <= i < |history| && history[i].SetEntry? ==>
      Genuine(history[i].key, history[i].value, history[i].now, mode, hash, oracle)
  }

  lemma {:induction false} LastSetIsGenuine(history: seq<Event<CacheKey, bool>>, key: CacheKey, mode: Mode, hash: Hash, oracle: Oracle)
    requires StoresGenuineAnswers(history, mode, hash, oracle) && LastSet(history, key).Some?
    ensures Genuine(key, LastSet(history, key).value.0, LastSet(history, key).value.1, mode, hash, oracle)
  {
    var n := |history| - 1;
    if !(history[n].SetEntry? && history[n].key == key) {
      LastSetIsGenuine(history[..n], key, mode, hash, oracle);
    }
  }

  // ----- Concurrent calls -----

  /** A call that missed: yet to ask the cluster, or with its answer. */
  datatype Pending = Missed(q: Request) | Reviewed(q: Request, answer: bool, at: Time)

  /** Calls of `is_allowed` over the shared cache; `history` is what they have done to it. */
  datatype Calls = Calls(history: seq<Event<CacheKey, bool>>, pending: map<nat, Pending>)

  datatype Action =
    | Look(t: nat, q: Request, now: Time)    // the read phase; a fresh entry answers the call
    | Clean(t: nat)                          // the cleanup phase, after an expired entry
    | Ask(t: nat, at: Time)                  // the review; if it fails, so does the call
    | Store(t: nat, now: Time)

  /** How the cluster answers, and what the calls share. */
  datatype Setup = Setup(start: Time, cfg: Config, mode: Mode, hash: Hash, oracle: Oracle)

  predicate Asks(q: Request, setup: Setup) {
    WellFormed(q.id) && SubjectOf(q.id, setup.mode).Ok?
  }

  ghost predicate CanTake(c: Calls, a: Action, setup: Setup)
    requires setup.cfg.maxEntries >= 1
  {
    var cache := After(setup.start, c.history, setup.cfg);
    cache.Some?
    && match a
       case Look(t, q, now) => t !in c.pending && Asks(q, setup) && Enabled(cache.value, BeginGet(t, KeyOf(q, setup.mode, setup.hash), now))
       case Clean(t) => Enabled(cache.value, Event<CacheKey, bool>.FinishGet(t))
       case Ask(t, at) => t in c.pending && c.pending[t].Missed? && t !in cache.value.inFlight && cache.value.clock <= at
       case Store(t, now) =>
         t in c.pending && c.pending[t].Reviewed? && c.pending[t].at <= now && Asks(c.pending[t].q, setup)
         && Enabled(cache.value, SetEntry(KeyOf(c.pending[t].q, setup.mode, setup.hash), c.pending[t].answer, now))
  }

  ghost function Taken(c: Calls, a: Action, setup: Setup): Calls
    requires setup.cfg.maxEntries >= 1 && CanTake(c, a, setup)
  {
    match a
    case Look(t, q, now) =>
      var key := KeyOf(q, setup.mode, setup.hash);
      var cache := After(setup.start, c.history, setup.cfg).value;
      Calls(c.history + [BeginGet(t, key, now)], if Read(cache.entries, key, now).Fresh? then c.pending else c.pending[t := Missed(q)])
    case Clean(t) => c.(history := c.history + [FinishGet(t)])
    case Ask(t, at) =>
      var q := c.pending[t].q;
      if !Asks(q, setup) then c.(pending := c.pending - {t})
      else
        var answer := setup.oracle(QueryOf(q, setup.mode), at);
        c.(pending := if answer.Ok? then c.pending[t := Reviewed(q, answer.value, at)] else c.pending - {t})
    case Store(t, now) =>
      var p := c.pending[t];
      Calls(c.history + [SetEntry(KeyOf(p.q, setup.mode, setup.hash), p.answer, now)], c.pending - {t})
  }

  ghost function AfterCalls(actions: seq<Action>, setup: Setup): Option<Calls>
    requires setup.cfg.maxEntries >= 1
  {
    if actions == [] then Some(Calls([], map[]))
    else
      var before := AfterCalls(actions[..|actions| - 1], setup);
      var last := actions[|actions| - 1];
      if before.Some? && CanTake(before.value, last, setup) then Some(Taken(before.value, last, setup)) else None
  }

  /** Every stored answer, and every one about to be, was given by the cluster. */
  ghost predicate CallsAreGenuine(c: Calls, setup: Setup) {
    && StoresGenuineAnswers(c.history, setup.mode, setup.hash, setup.oracle)
    && (forall t :: t in c.pending && c.pending[t].Reviewed? ==>
          Asks(c.pending[t].q, setup) && setup.oracle(QueryOf(c.pending[t].q, setup.mode), c.pending[t].at) == Ok(c.pending[t].answer))
  }

  lemma ActionKeepsGenuine(c: Calls, a: Action, setup: Setup)
    requires setup.cfg.maxEntries >= 1 && CanTake(c, a, setup) && CallsAreGenuine(c, setup)
    ensures CallsAreGenuine(Taken(c, a, setup), setup)
  {
    if a.Store? {
      var p := c.pending[a.t];
      assert Genuine(KeyOf(p.q, setup.mode, setup.hash), p.answer, a.now, setup.mode, setup.hash, setup.oracle);
    }
  }

  lemma {:induction false} CallsStayGenuine(actions: seq<Action>, setup: Setup)
    requires setup.cfg.maxEntries >= 1 && AfterCalls(actions, setup).Some?
    ensures CallsAreGenuine(AfterCalls(actions, setup).value, setup)
  {
    if actions != [] {
      CallsStayGenuine(actions[..|actions| - 1], setup);
      ActionKeepsGenuine(AfterCalls(actions[..|actions| - 1], setup).value, actions[|actions| - 1], setup);
    }
  }

  lemma OneMoreAction(actions: seq<Action>, setup: Setup, c: Calls, a: Action)
    requires setup.cfg.maxEntries >= 1 && AfterCalls(actions, setup) == Some(c) && CanTake(c, a, setup)
    ensures AfterCalls(actions + [a], setup) == Some(Taken(c, a, setup))
  {
    assert (actions + [a])[..|actions|] == actions;
  }

  lemma OneMoreEvent(setup: Setup, history: seq<Event<CacheKey, bool>>, ev: Event<CacheKey, bool>)
    requires setup.cfg.maxEntries >= 1 && After(setup.start, history, setup.cfg).Some? && Enabled(After(setup.start, history, setup.cfg).value, ev)
    ensures After(setup.start, history + [ev], setup.cfg) == Some(Step(After(setup.start, history, setup.cfg).value, ev, setup.cfg))
  {
    assert (history + [ev])[..|history|] == history;
  }

  /** A miss that nothing comes between is answered by the cluster, and the answer is then in the cache for one TTL. */
  lemma UndisturbedCallIsCached(actions: seq<Action>, setup: Setup, t: nat, q: Request, now: Time, later: Time, answer: bool)
    requires setup.cfg.maxEntries >= 1 && AfterCalls(actions, setup).Some? && now <= later < now + setup.cfg.ttl
    requires WellFormed(q.id) && SubjectOf(q.id, setup.mode).Ok? && setup.oracle(QueryOf(q, setup.mode), now) == Ok(answer)
    requires var c := AfterCalls(actions, setup).value;
             var cache := After(setup.start, c.history, setup.cfg);
             && cache.Some? && t !in c.pending && t !in cache.value.inFlight && cache.value.clock <= now
             && Read(cache.value.entries, KeyOf(q, setup.mode, setup.hash), now).Absent?
    ensures var c := AfterCalls(actions + [Look(t, q, now)] + [Ask(t, now)] + [Store(t, now)], setup);
            && c.Some? && c.value.pending == AfterCalls(actions, setup).value.pending && After(setup.start, c.value.history, setup.cfg).Some?
            && Read(After(setup.start, c.value.history, setup.cfg).value.entries, KeyOf(q, setup.mode, setup.hash), later) == Fresh(answer)
  {
    var c, key := AfterCalls(actions, setup).value, KeyOf(q, setup.mode, setup.hash);
    var cache := After(setup.start, c.history, setup.cfg).value;
    var looked := c.history + [BeginGet(t, key, now)];
    OneMoreEvent(setup, c.history, BeginGet(t, key, now));
    OneMoreAction(actions, setup, c, Look(t, q, now));
    var c1 := Calls(looked, c.pending[t := Missed(q)]);
    OneMoreAction(actions + [Look(t, q, now)], setup, c1, Ask(t, now));
    var c2 := Calls(looked, c1.pending[t := Reviewed(q, answer, now)]);
    RunKeepsInvariant(setup.start, looked, setup.cfg);
    OneMoreEvent(setup, looked, SetEntry(key, answer, now));
    OneMoreAction(actions + [Look(t, q, now)] + [Ask(t, now)], setup, c2, Store(t, now));
    SetIsRead(cache.(clock := now), key, answer, now, later, setup.cfg);
    assert c2.pending - {t} == c.pending;
  }

  /** So there is a run that asks the cluster once, and has the answer in the cache for one TTL. */
  lemma FirstCallIsCached(setup: Setup, q: Request, later: Time, answer: bool)
    requires setup.cfg.maxEntries >= 1 && setup.start <= later < setup.start + setup.cfg.ttl
    requires WellFormed(q.id) && SubjectOf(q.id, setup.mode).Ok? && setup.oracle(QueryOf(q, setup.mode), setup.start) == Ok(answer)
    ensures exists actions :: AfterCalls(actions, setup).Some?
              && var cache := After(setup.start, AfterCalls(actions, setup).value.history, setup.cfg);
                 cache.Some? && Read(cache.value.entries, KeyOf(q, setup.mode, setup.hash), later) == Fresh(answer)
  {
    UndisturbedCallIsCached([], setup, 0, q, setup.start, later, answer);
    assert AfterCalls([] + [Look(0, q, setup.start)] + [Ask(0, setup.start)] + [Store(0, setup.start)], setup).Some?;
  }

  /**
   * However many calls interleave, one that is answered from the cache is answered with what the cluster said
   * to exactly its question, stored less than one TTL ago.
   */
  lemma ConcurrentHitsAreGenuine(actions: seq<Action>, setup: Setup, t: nat, q: Request, now: Time)
    requires setup.cfg.maxEntries >= 1 && Injective(setup.hash) && AfterCalls(actions, setup).Some?
    requires CanTake(AfterCalls(actions, setup).value, Look(t, q, now), setup)
    ensures Puts(q, setup.mode, QueryOf(q, setup.mode))
    ensures var cache := After(setup.start, AfterCalls(actions, setup).value.history, setup.cfg).value;
            match Read(cache.entries, KeyOf(q, setup.mode, setup.hash), now)
            case Fresh(answer) => exists at: Time :: at <= now < at + setup.cfg.ttl && Answered(QueryOf(q, setup.mode), answer, at, setup.oracle)
            case _ => true
  {
    QuestionIsTheCallers(q, setup.mode);
    var history := AfterCalls(actions, setup).value.history;
    var key := KeyOf(q, setup.mode, setup.hash);
    CallsStayGenuine(actions, setup);
    if Read(After(setup.start, history, setup.cfg).value.entries, key, now).Fresh? {
      GetReturnsLatestSet(setup.start, history, setup.cfg, t, key, now);
      LastSetIsGenuine(history, key, setup.mode, setup.hash, setup.oracle);
      var (answer, at) := LastSet(history, key).value;
      GenuineAnswersTheQuestion(q, answer, at, setup.mode, setup.hash, setup.oracle);
    }
  }
}
