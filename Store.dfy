/**
  The visit store of lib/server.js (`data.posts`): recording a visit through
  `POST /api/posts/:id/visits`, and the daily purge that keeps only the
  visits of the last 30 days. Both save the whole store afterwards through
  the write-coalescing protocol of module Persistence.

  A post keeps two counters apart: `numVisits`, the lifetime number of visits,
  and `visits`, the retained recent ones. Records written by older versions
  may lack `numVisits`; both the purge and the visit path then fill it in
  from the number of retained visits.
*/
module Store {
  import opened Wrappers
  import JsObjects
  import Persistence

  /** A new post id must be shorter than this. */
  const MaxIdLength := 256
  const DayMs := 24 * 60 * 60 * 1000
  const RetentionDays := 30
  const RetentionMs := RetentionDays * DayMs

  /** One recorded page view; `timestamp` is in milliseconds since the epoch. */
  datatype Visit = Visit(timestamp: int, ip: string, userAgent: string, postId: string, referrer: string)

  /** `numVisits` is `None` when the stored record has no numeric counter. */
  datatype Post = Post(numVisits: Option<int>, visits: seq<Visit>)

  type Posts = map<string, Post>

  /** The result of `POST /api/posts/:id/visits`: 200, 400, or a thrown TypeError. */
  datatype Outcome = Recorded | Rejected | Failed

  /** The lifetime count of a post, filled in from `visits` when the record has none. */
  function LifetimeCount(p: Post): (n: int)
    ensures p.numVisits.Some? ==> n == p.numVisits.value
    ensures p.numVisits.None? ==> n == |p.visits|
  {
    match p.numVisits
    case Some(n) => n
    case None => |p.visits|
  }

  /** The lifetime counter covers at least the retained visits. */
  predicate WellCounted(p: Post)
  {
    p.numVisits.Some? ==> p.numVisits.value >= |p.visits|
  }

  /** The decoded post id with at most one leading and one trailing `/` removed. */
  function NormalizeId(s: string): (r: string)
    ensures var lead := if |s| > 0 && s[0] == '/' then 1 else 0;
            && lead + |r| <= |s| <= lead + |r| + 1
            && r == s[lead..lead + |r|]
            && (|s| == lead + |r| + 1 ==> s[|s| - 1] == '/')
            && (|s| > lead && s[|s| - 1] == '/' ==> |s| == lead + |r| + 1)
    ensures (|s| == 0 || (s[0] != '/' && s[|s| - 1] != '/')) ==> r == s
  {
    var t := if |s| > 0 && s[0] == '/' then s[1..] else s;
    if |t| > 0 && t[|t| - 1] == '/' then t[..|t| - 1] else t
  }

  /**
    The stored referrer: the query's referrer when it is empty or has a host
    name, and the empty string otherwise. `hasHost` stands for
    `url.parse(referrer).hostname` being truthy.
  */
  function ValidateReferrer(raw: string, hasHost: string -> bool): (r: string)
    ensures r == raw || r == ""
    ensures r == "" <==> raw == "" || !hasHost(raw)
  {
    if raw != "" && !hasHost(raw) then "" else raw
  }

  /** A post after one more visit `v`: its count filled in and incremented, `v` appended. */
  function Visited(p: Post, v: Visit): (r: Post)
    ensures r.numVisits == Some(LifetimeCount(p) + 1)
    ensures |r.visits| == |p.visits| + 1 && r.visits[..|p.visits|] == p.visits && r.visits[|p.visits|] == v
  {
    assert (p.visits + [v])[..|p.visits|] == p.visits;
    Post(Some(LifetimeCount(p) + 1), p.visits + [v])
  }

  /** A post as `/api/posts/:id/visits` creates it. */
  const NewPost := Post(Some(0), [])

  /**
    The store after a visit `v` to the (normalised) id. The post is created
    when the id names none and is shorter than 256 characters; a longer new id
    is rejected. An id that names no post but an inherited member of the
    posts object passes the existence test, and reading its visits then
    throws.
  */
  function AddVisit(posts: Posts, id: string, v: Visit): (r: (Outcome, Posts))
    ensures r.0 != Recorded ==> r.1 == posts
    ensures r.0 == Rejected <==> id !in posts && id !in JsObjects.InheritedKeys && |id| >= MaxIdLength
    ensures r.0 == Failed <==> id !in posts && id in JsObjects.InheritedKeys
    ensures r.0 == Recorded ==>
              && r.1.Keys == posts.Keys + {id}
              && (forall k :: k in posts && k != id ==> r.1[k] == posts[k])
              && var before := if id in posts then posts[id] else NewPost;
                 r.1[id].visits == before.visits + [v] && r.1[id].numVisits == Some(LifetimeCount(before) + 1)
  {
    if !JsObjects.Truthy(posts.Keys, id) && |id| >= MaxIdLength then (Rejected, posts)
    else
      var created := if JsObjects.Truthy(posts.Keys, id) then posts else posts[id := NewPost];
      if id !in created then (Failed, posts)
      else (Recorded, created[id := Visited(created[id], v)])
  }

  /** Recording a visit keeps every post's lifetime counter at least its number of retained visits. */
  lemma AddVisitKeepsWellCounted(posts: Posts, id: string, v: Visit)
    requires forall k :: k in posts ==> WellCounted(posts[k])
    ensures var after := AddVisit(posts, id, v).1;
            forall k :: k in after ==> WellCounted(after[k])
  {
  }

  /**
    The number of leading visits older than `cutoff`: the index of the first
    visit the purge keeps.
  */
  function FirstKept(visits: seq<Visit>, cutoff: int): (i: nat)
    ensures i <= |visits|
    ensures forall j :: 0 <= j < i ==> visits[j].timestamp < cutoff
    ensures i < |visits| ==> visits[i].timestamp >= cutoff
    decreases |visits|
  {
    if visits == [] || visits[0].timestamp >= cutoff then 0
    else 1 + FirstKept(visits[1..], cutoff)
  }

  /** The linear scan of the purge loop. */
  method ScanCutoff(visits: seq<Visit>, cutoff: int) returns (i: nat)
    ensures i == FirstKept(visits, cutoff)
  {
    i := 0;
    while i < |visits| && visits[i].timestamp < cutoff
      invariant i <= |visits|
      invariant forall j :: 0 <= j < i ==> visits[j].timestamp < cutoff
    {
      i := i + 1;
    }
  }

  /** A post after the purge: its counter filled in, its leading old visits dropped. */
  function TrimPost(p: Post, cutoff: int): (r: Post)
    ensures p.numVisits.Some? ==> r.numVisits == p.numVisits
    ensures p.numVisits.None? ==> r.numVisits == Some(|p.visits|)
    ensures |r.visits| <= |p.visits| && p.visits == p.visits[..|p.visits| - |r.visits|] + r.visits
    ensures forall j :: 0 <= j < |p.visits| - |r.visits| ==> p.visits[j].timestamp < cutoff
    ensures |r.visits| > 0 ==> r.visits[0].timestamp >= cutoff
  {
    var i := FirstKept(p.visits, cutoff);
    assert p.visits == p.visits[..i] + p.visits[i..];
    Post(Some(LifetimeCount(p)), p.visits[i..])
  }

  /** The store after the purge: every post trimmed, none removed. */
  function PurgeAll(posts: Posts, cutoff: int): (r: Posts)
    ensures r.Keys == posts.Keys
    ensures forall k :: k in posts ==> r[k] == TrimPost(posts[k], cutoff)
  {
    map k | k in posts :: TrimPost(posts[k], cutoff)
  }

  /** Trimming the kept suffix again with a later cutoff is the same as trimming once with it. */
  lemma {:induction false} FirstKeptLater(visits: seq<Visit>, early: int, late: int)
    requires early <= late
    ensures FirstKept(visits, early) <= FirstKept(visits, late)
    ensures FirstKept(visits, early) + FirstKept(visits[FirstKept(visits, early)..], late) == FirstKept(visits, late)
    decreases |visits|
  {
    if visits == [] {
    } else if visits[0].timestamp >= early {
      assert visits[0..] == visits;
    } else {
      FirstKeptLater(visits[1..], early, late);
      var k := FirstKept(visits[1..], early);
      assert visits[1 + k..] == visits[1..][k..];
    }
  }

  /** Trimming a post with a cutoff and then with a later (or the same) one is trimming once with the later one. */
  lemma TrimTwice(p: Post, early: int, late: int)
    requires early <= late
    ensures TrimPost(TrimPost(p, early), late) == TrimPost(p, late)
  {
    var v := p.visits;
    FirstKeptLater(v, early, late);
    var i := FirstKept(v, early);
    assert TrimPost(p, early).visits == v[i..];
    assert v[i..][FirstKept(v[i..], late)..] == v[FirstKept(v, late)..];
  }

  lemma SameEntries(a: Posts, b: Posts)
    requires a.Keys == b.Keys
    requires forall k :: k in a ==> a[k] == b[k]
    ensures a == b
  {
  }

  lemma PurgeTwicePointwise(posts: Posts, early: int, late: int)
    requires early <= late
    ensures forall k :: k in posts ==> PurgeAll(PurgeAll(posts, early), late)[k] == PurgeAll(posts, late)[k]
  {
    forall k | k in posts
      ensures PurgeAll(PurgeAll(posts, early), late)[k] == PurgeAll(posts, late)[k]
    {
      TrimTwice(posts[k], early, late);
    }
  }

  /**
    Purging with a cutoff and then with a later (or the same) one is the same
    as purging once with the later one; in particular the purge is idempotent.
  */
  lemma PurgeTwice(posts: Posts, early: int, late: int)
    requires early <= late
    ensures PurgeAll(PurgeAll(posts, early), late) == PurgeAll(posts, late)
  {
    PurgeTwicePointwise(posts, early, late);
    SameEntries(PurgeAll(PurgeAll(posts, early), late), PurgeAll(posts, late));
  }

  lemma PurgeIdempotent(posts: Posts, cutoff: int)
    ensures PurgeAll(PurgeAll(posts, cutoff), cutoff) == PurgeAll(posts, cutoff)
  {
    PurgeTwice(posts, cutoff, cutoff);
  }

  /** After the purge every post has a lifetime counter, and it covers the retained visits. */
  lemma PurgeFillsCounters(posts: Posts, cutoff: int)
    requires forall k :: k in posts ==> WellCounted(posts[k])
    ensures var after := PurgeAll(posts, cutoff);
            forall k :: k in after ==> after[k].numVisits.Some? && WellCounted(after[k])
  {
  }

  /** The store: the posts object, and the save protocol that writes it to the data file. */
  class VisitStore {
    var posts: Posts
    const saver: Persistence.Saver<Posts>

    ghost predicate Valid()
      reads this, saver
    {
      saver.Valid()
    }

    /**
      Startup: the posts read from the data file, or, when there is no data
      file, an empty store that is saved at once.
    */
    constructor (loaded: Option<Posts>)
      ensures Valid() && fresh(saver)
      ensures posts == if loaded.Some? then loaded.value else map[]
      ensures saver.State() == if loaded.Some? then Persistence.Idle else Persistence.SaveState(true, false)
      ensures saver.written == if loaded.Some? then [] else [map[]]
    {
      var s := new Persistence.Saver<Posts>();
      saver := s;
      if loaded.Some? {
        posts := loaded.value;
      } else {
        posts := map[];
        var _ := s.Save(map[]);
      }
    }

    /**
      `POST /api/posts/:id/visits` with the percent-decoded id `rawId`, at
      time `now`, from `ip` with `userAgent`, and the query's referrer
      (`""` when absent). A recorded visit saves the store.
    */
    method RecordVisit(rawId: string, now: int, ip: string, userAgent: string,
                       rawReferrer: string, hasHost: string -> bool) returns (outcome: Outcome)
      requires Valid()
      modifies this, saver
      ensures Valid()
      ensures var id := NormalizeId(rawId);
              var v := Visit(now, ip, userAgent, id, ValidateReferrer(rawReferrer, hasHost));
              (outcome, posts) == AddVisit(old(posts), id, v)
      ensures outcome == Recorded ==>
                saver.State() == Persistence.OnSave(old(saver.State())).state &&
                saver.written == if old(saver.writing) then old(saver.written) else old(saver.written) + [posts]
      ensures outcome != Recorded ==> saver.State() == old(saver.State()) && saver.written == old(saver.written)
    {
      var id := NormalizeId(rawId);
      if !JsObjects.Truthy(posts.Keys, id) {
        if |id| < MaxIdLength {
          posts := posts[id := NewPost];
        } else {
          return Rejected;
        }
      }
      var referrer := ValidateReferrer(rawReferrer, hasHost);
      if id !in posts {
        // An inherited member of the posts object has no `visits`: TypeError.
        return Failed;
      }
      var post := posts[id];
      var count := LifetimeCount(post);
      posts := posts[id := Post(Some(count + 1), post.visits + [Visit(now, ip, userAgent, id, referrer)])];
      var _ := saver.Save(posts);
      outcome := Recorded;
    }

    /** The daily purge at time `now`: trims every post, then saves the store. */
    method Purge(now: int)
      requires Valid()
      modifies this, saver
      ensures Valid()
      ensures posts == PurgeAll(old(posts), now - RetentionMs)
      ensures saver.State() == Persistence.OnSave(old(saver.State())).state
      ensures saver.written == if old(saver.writing) then old(saver.written) else old(saver.written) + [posts]
    {
      var cutoff := now - RetentionMs;
      ghost var original := posts;
      var pending := posts.Keys;
      while pending != {}
        modifies this
        invariant pending <= original.Keys && posts.Keys == original.Keys
        invariant forall k :: k in original ==>
                    posts[k] == if k in pending then original[k] else TrimPost(original[k], cutoff)
        decreases pending
      {
        var k :| k in pending;
        var post := posts[k];
        var count := LifetimeCount(post);
        var i := ScanCutoff(post.visits, cutoff);
        posts := posts[k := Post(Some(count), post.visits[i..])];
        pending := pending - {k};
      }
      var _ := saver.Save(posts);
    }

    /** The completion of a file write; a follow-up write serialises the current posts. */
    method WriteFinished(ok: bool)
      requires Valid()
      modifies saver
      ensures Valid()
      ensures saver.State() == Persistence.OnComplete(old(saver.State()), ok).state
      ensures saver.written == if ok && old(saver.needsRewrite) then old(saver.written) + [posts] else old(saver.written)
    {
      var _ := saver.Complete(ok, posts);
    }
  }
}
