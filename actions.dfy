/** lib/actions.ts: submitting a post and toggling a vote. The `posts`
    collection is held in memory by a store object; each operation is one
    atomic step over it. */
module Actions {
  import opened Wrappers
  import opened Text
  import opened Schemas

  /** The user of a signed-in session. */
  datatype User = User(id: UserId, name: string)

  /** What the two operations throw. */
  datatype Error =
    | Unauthorized                          // "Unauthorized"
    | ValidationFailed(issues: seq<Issue>)  // the schema's error, listing its issues
    | DuplicateUrl                          // "This URL has already been submitted"
    | PostNotFound                          // "Post not found"

  const AnonymousUser := "Anonymous User"

  /** `session.user.name || "Anonymous User"`. */
  function AuthorName(u: User): (name: string)
    ensures name != ""
    ensures u.name != "" ==> name == u.name
    ensures u.name == "" ==> name == AnonymousUser
  {
    if u.name == "" then AnonymousUser else u.name
  }

  /** `post.points || 0`. */
  function PointsOf(d: Doc): (p: int)
    ensures d.points.Some? ==> p == d.points.value
    ensures d.points.None? ==> p == 0
  {
    d.points.GetOr(0)
  }

  /** `post.votes || []`. */
  function VotesOf(d: Doc): (votes: seq<UserId>)
    ensures d.votes.Some? ==> votes == d.votes.value
    ensures d.votes.None? ==> votes == []
  {
    d.votes.GetOr([])
  }

  predicate NoDuplicates<T(==)>(s: seq<T>) {
    forall i, j :: 0 <= i < j < |s| ==> s[i] != s[j]
  }

  /** `votes.filter(id => id !== voter)`: every occurrence of `voter` removed,
      everyone else kept in order. */
  function Without(votes: seq<UserId>, voter: UserId): (r: seq<UserId>)
    ensures forall v :: v in r <==> v in votes && v != voter
    ensures voter !in votes ==> r == votes
    ensures NoDuplicates(votes) ==> NoDuplicates(r)
    ensures NoDuplicates(votes) && voter in votes ==> |r| == |votes| - 1
  {
    if votes == [] then []
    else
      var rest := Without(votes[1..], voter);
      assert votes == [votes[0]] + votes[1..];
      if votes[0] == voter then rest
      else
        var r := [votes[0]] + rest;
        assert NoDuplicates(votes) ==> NoDuplicates(r) by {
          if NoDuplicates(votes) {
            assert votes[0] !in votes[1..];
            forall i, j | 0 <= i < j < |r| ensures r[i] != r[j] {
              if i == 0 {
                assert r[j] in rest;
              }
            }
          }
        }
        r
  }

  /** The invariant every mutation keeps: no voter twice, and the points are
      the number of voters. */
  predicate WellFormed(d: Doc) {
    NoDuplicates(VotesOf(d)) && PointsOf(d) == |VotesOf(d)|
  }

  /** A document and the vote result that goes with it. */
  datatype Toggled = Toggled(doc: Doc, result: VoteState)

  /** One vote by `voter` on `d`: a voter already in `votes` is removed and the
      points go down by one, floored at 0; anyone else is appended and the
      points go up by one. Only `points` and `votes` change. */
  function ToggleVote(d: Doc, voter: UserId): (t: Toggled)
    ensures t.doc.(points := d.points, votes := d.votes) == d
    ensures t.doc.points == Some(t.result.points) && t.doc.votes.Some?
    ensures t.result.hasVoted <==> voter in VotesOf(t.doc)
    ensures t.result.hasVoted <==> voter !in VotesOf(d)
    ensures forall v :: v != voter ==> (v in VotesOf(t.doc) <==> v in VotesOf(d))
    ensures t.result.points == (if voter in VotesOf(d) then Max(0, PointsOf(d) - 1) else PointsOf(d) + 1)
    ensures PointsOf(d) >= 0 ==> t.result.points >= 0
  {
    var votes := VotesOf(d);
    if voter in votes then
      var points := Max(0, PointsOf(d) - 1);
      Toggled(d.(points := Some(points), votes := Some(Without(votes, voter))), VoteState(points, false))
    else
      var points := PointsOf(d) + 1;
      Toggled(d.(points := Some(points), votes := Some(votes + [voter])), VoteState(points, true))
  }

  function Max(a: int, b: int): int {
    if a >= b then a else b
  }

  /** A vote keeps the invariant, and on a well-formed post it moves the
      points by exactly one, so the floor at 0 never applies. */
  lemma ToggleKeepsWellFormed(d: Doc, voter: UserId)
    requires WellFormed(d)
    ensures var t := ToggleVote(d, voter);
            && WellFormed(t.doc)
            && t.result.points == PointsOf(d) + (if t.result.hasVoted then 1 else -1)
  {
    var votes := VotesOf(d);
    if voter !in votes {
      var added := votes + [voter];
      assert NoDuplicates(added) by {
        forall i, j | 0 <= i < j < |added| ensures added[i] != added[j] {
          if j == |votes| {
            assert added[i] == votes[i];
          }
        }
      }
    }
  }

  /** Voting twice in a row restores the post: the same points, the same
      voters (in the same order when the voter had not voted), and the flag
      back where it was. */
  lemma ToggleTwiceRestores(d: Doc, voter: UserId)
    requires WellFormed(d)
    ensures var once := ToggleVote(d, voter);
            var twice := ToggleVote(once.doc, voter);
            && twice.result.hasVoted == (voter in VotesOf(d))
            && PointsOf(twice.doc) == PointsOf(d)
            && multiset(VotesOf(twice.doc)) == multiset(VotesOf(d))
            && (voter !in VotesOf(d) ==> VotesOf(twice.doc) == VotesOf(d))
            && twice.doc.(points := d.points, votes := d.votes) == d
  {
    var once := ToggleVote(d, voter);
    ToggleKeepsWellFormed(d, voter);
    ToggleKeepsWellFormed(once.doc, voter);
    if voter in VotesOf(d) {
      RemoveThenAdd(d, voter);
    } else {
      AddThenRemove(d, voter);
    }
  }

  lemma RemoveThenAdd(d: Doc, voter: UserId)
    requires WellFormed(d) && voter in VotesOf(d)
    ensures var twice := ToggleVote(ToggleVote(d, voter).doc, voter);
            multiset(VotesOf(twice.doc)) == multiset(VotesOf(d))
  {
    var votes := VotesOf(d);
    var i :| 0 <= i < |votes| && votes[i] == voter;
    WithoutAt(votes, i);
    var removed := VotesOf(ToggleVote(d, voter).doc);
    assert removed == votes[..i] + votes[i + 1..];
    assert VotesOf(ToggleVote(ToggleVote(d, voter).doc, voter).doc) == removed + [voter];
    MovedToEnd(votes, i);
  }

  /** Moving one element to the end keeps the same elements. */
  lemma MovedToEnd(s: seq<UserId>, i: nat)
    requires i < |s|
    ensures multiset(s[..i] + s[i + 1..] + [s[i]]) == multiset(s)
  {
    assert s == s[..i] + [s[i]] + s[i + 1..];
  }

  lemma AddThenRemove(d: Doc, voter: UserId)
    requires voter !in VotesOf(d)
    ensures var twice := ToggleVote(ToggleVote(d, voter).doc, voter);
            VotesOf(twice.doc) == VotesOf(d)
  {
    var votes := VotesOf(d);
    assert VotesOf(ToggleVote(d, voter).doc) == votes + [voter];
    WithoutAppend(votes, voter);
  }

  /** Removing a voter who appears once at position `i` is deleting position `i`. */
  lemma {:induction false} WithoutAt(votes: seq<UserId>, i: nat)
    requires NoDuplicates(votes) && i < |votes|
    ensures Without(votes, votes[i]) == votes[..i] + votes[i + 1..]
  {
    var voter := votes[i];
    var tail := votes[1..];
    TailKeepsNoDuplicates(votes);
    if i == 0 {
      assert Without(votes, voter) == Without(tail, voter);
      assert votes[..0] + votes[1..] == tail;
    } else {
      assert votes[0] != voter;
      assert tail[i - 1] == voter;
      WithoutAt(tail, i - 1);
      assert Without(votes, voter) == [votes[0]] + (tail[..i - 1] + tail[i..]);
      HeadBeforeGap(votes, i);
    }
  }

  /** The tail of a list without duplicates has none, and lacks the head. */
  lemma TailKeepsNoDuplicates(votes: seq<UserId>)
    requires NoDuplicates(votes) && votes != []
    ensures NoDuplicates(votes[1..]) && votes[0] !in votes[1..]
  {
    var tail := votes[1..];
    forall j, k | 0 <= j < k < |tail| ensures tail[j] != tail[k] {
      assert tail[j] == votes[j + 1] && tail[k] == votes[k + 1];
    }
    forall k | 0 <= k < |tail| ensures tail[k] != votes[0] {
      assert tail[k] == votes[k + 1];
    }
  }

  /** Putting the head back in front of the tail with a gap at `i - 1` gives
      the list with a gap at `i`. */
  lemma HeadBeforeGap(votes: seq<UserId>, i: nat)
    requires 0 < i < |votes|
    ensures [votes[0]] + (votes[1..][..i - 1] + votes[1..][i..]) == votes[..i] + votes[i + 1..]
  {
    assert votes[1..][..i - 1] == votes[1..i];
    assert votes[1..][i..] == votes[i + 1..];
    assert [votes[0]] + votes[1..i] == votes[..i];
  }

  /** Appending a new voter and removing them again leaves the votes as they were. */
  lemma {:induction false} WithoutAppend(votes: seq<UserId>, voter: UserId)
    requires voter !in votes
    ensures Without(votes + [voter], voter) == votes
  {
    if votes == [] {
      assert Without([voter], voter) == Without([], voter);
    } else {
      WithoutAppend(votes[1..], voter);
      assert (votes + [voter])[1..] == votes[1..] + [voter];
      assert votes == [votes[0]] + votes[1..];
    }
  }

  /** The post after the votes of `voters` one after the other, and the results
      they got. */
  function ToggleAll(d: Doc, voters: seq<UserId>): (r: (Doc, seq<VoteState>))
    ensures |r.1| == |voters|
    decreases |voters|
  {
    if voters == [] then (d, [])
    else
      var t := ToggleVote(d, voters[0]);
      var rest := ToggleAll(t.doc, voters[1..]);
      (rest.0, [t.result] + rest.1)
  }

  /** How many results say `hasVoted == flag`. */
  function CountResults(results: seq<VoteState>, flag: bool): nat {
    if results == [] then 0
    else (if results[0].hasVoted == flag then 1 else 0) + CountResults(results[1..], flag)
  }

  /** After any sequence of votes the post is still well formed and its points
      are the starting points plus the votes that ended "voted" minus those that
      ended "not voted". */
  lemma {:induction false} ToggleAllNetEffect(d: Doc, voters: seq<UserId>)
    requires WellFormed(d)
    ensures var (final, results) := ToggleAll(d, voters);
            && WellFormed(final)
            && PointsOf(final) == PointsOf(d) + CountResults(results, true) - CountResults(results, false)
    decreases |voters|
  {
    if voters != [] {
      var t := ToggleVote(d, voters[0]);
      ToggleKeepsWellFormed(d, voters[0]);
      ToggleAllNetEffect(t.doc, voters[1..]);
      var results := ToggleAll(d, voters).1;
      assert results[1..] == ToggleAll(t.doc, voters[1..]).1;
    }
  }

  predicate UniqueIds(posts: seq<Doc>) {
    forall i, j :: 0 <= i < j < |posts| ==> posts[i].id != posts[j].id
  }

  predicate UniqueUrls(posts: seq<Doc>) {
    forall i, j :: 0 <= i < j < |posts| ==> posts[i].url != posts[j].url
  }

  /** What the collection keeps at all times: ids and urls unique (the unique
      url index), every post well formed. */
  predicate ValidPosts(posts: seq<Doc>) {
    && UniqueIds(posts)
    && UniqueUrls(posts)
    && forall i :: 0 <= i < |posts| ==> WellFormed(posts[i])
  }

  /** `findOne({url})` finds a post. */
  predicate UrlTaken(posts: seq<Doc>, url: string) {
    exists i :: 0 <= i < |posts| && posts[i].url == url
  }

  /** `findOne({_id})`: the position of the post with id `id`, if there is one. */
  function FindById(posts: seq<Doc>, id: PostId): (r: Option<nat>)
    ensures r.Some? ==> r.value < |posts| && posts[r.value].id == id
    ensures r.None? ==> forall i :: 0 <= i < |posts| ==> posts[i].id != id
  {
    if posts == [] then None
    else if posts[0].id == id then Some(0)
    else
      match FindById(posts[1..], id)
      case None => None
      case Some(k) => Some(k + 1)
  }

  /** The document a successful submission inserts. */
  function NewPost(id: PostId, s: Submission, author: User, now: int): (d: Doc)
    ensures WellFormed(d) && PointsOf(d) == 1 && VotesOf(d) == [author.id]
    ensures d.id == id && d.title == s.title && d.url == s.url && d.submittedAt == now
    ensures d.submittedById == author.id && d.submittedByName == AuthorName(author)
  {
    Doc(id, s.title, s.url, Some(1), author.id, AuthorName(author), now, Some([author.id]))
  }

  /** A vote keeps the collection valid: only one post's points and votes change. */
  lemma ToggleAtKeepsValid(posts: seq<Doc>, i: nat, voter: UserId)
    requires ValidPosts(posts) && i < |posts|
    ensures ValidPosts(posts[i := ToggleVote(posts[i], voter).doc])
  {
    ToggleKeepsWellFormed(posts[i], voter);
  }

  /** Inserting a well-formed post with a fresh id and an unused url keeps the
      collection valid. */
  lemma InsertKeepsValid(posts: seq<Doc>, nextId: PostId, d: Doc)
    requires ValidPosts(posts) && forall i :: 0 <= i < |posts| ==> posts[i].id < nextId
    requires d.id == nextId && WellFormed(d) && !UrlTaken(posts, d.url)
    ensures ValidPosts(posts + [d])
    ensures forall i :: 0 <= i < |posts + [d]| ==> (posts + [d])[i].id < nextId + 1
  {
    var after := posts + [d];
    forall i | 0 <= i < |after| ensures WellFormed(after[i]) && after[i].id < nextId + 1 {
      if i < |posts| {
        assert after[i] == posts[i];
      }
    }
    assert UniqueUrls(after) by {
      forall i, j | 0 <= i < j < |after| ensures after[i].url != after[j].url {
        if j < |posts| {
          assert after[i] == posts[i] && after[j] == posts[j];
        } else {
          assert after[i] == posts[i];
        }
      }
    }
  }

  /** What `submitPost` decides before writing, in the order it checks: no
      session, then a refused submission, then a url already present; else
      the submission to insert, trimmed. */
  function SubmitDecision(posts: seq<Doc>, session: Option<User>, title: string, url: string,
                          parsesAsUrl: string -> bool): (r: Result<Submission, Error>)
    ensures session.None? ==> r == Failure(Unauthorized)
    ensures var parsed := ParseSubmission(title, url, parsesAsUrl);
            && (session.Some? && parsed.Failure? ==> r == Failure(ValidationFailed(parsed.error)))
            && (session.Some? && parsed.Success? && UrlTaken(posts, parsed.value.url) ==>
                  r == Failure(DuplicateUrl))
            && (r.Success? <==> session.Some? && parsed.Success? && !UrlTaken(posts, parsed.value.url))
            && (r.Success? ==> r.value == parsed.value)
  {
    var parsed := ParseSubmission(title, url, parsesAsUrl);
    if session.None? then Failure(Unauthorized)
    else if parsed.Failure? then Failure(ValidationFailed(parsed.error))
    else if UrlTaken(posts, parsed.value.url) then Failure(DuplicateUrl)
    else Success(parsed.value)
  }

  /** The `posts` collection. */
  class PostStore {
    var posts: seq<Doc>
    /** The id the next inserted post gets. */
    var nextId: PostId
    /** How often the "posts" cache tag has been invalidated. */
    ghost var revalidations: nat

    ghost predicate Valid()
      reads this
    {
      ValidPosts(posts) && forall i :: 0 <= i < |posts| ==> posts[i].id < nextId
    }

    constructor ()
      ensures Valid() && posts == [] && nextId == 0 && revalidations == 0
    {
      posts := [];
      nextId := 0;
      revalidations := 0;
    }

    /** `submitPost`: check the session, validate, refuse a url already
        present, then insert the post with one point and its author's vote. */
    method SubmitPost(session: Option<User>, title: string, url: string, now: int,
                      parsesAsUrl: string -> bool)
      returns (r: Result<SubmitPostResult, Error>)
      requires Valid()
      modifies this
      ensures Valid()
      ensures var decision := SubmitDecision(old(posts), session, title, url, parsesAsUrl);
              && (decision.Failure? ==> && r == Failure(decision.error)
                                        && posts == old(posts) && nextId == old(nextId)
                                        && revalidations == old(revalidations))
              && (decision.Success? ==> && r == Success(SubmitPostResult(true))
                                        && posts == old(posts) + [NewPost(old(nextId), decision.value, session.value, now)]
                                        && nextId == old(nextId) + 1
                                        && revalidations == old(revalidations) + 1)
    {
      if session.None? {
        return Failure(Unauthorized);
      }
      var user := session.value;
      var validated := ParseSubmission(title, url, parsesAsUrl);
      if validated.Failure? {
        return Failure(ValidationFailed(validated.error));
      }
      var submission := validated.value;
      if UrlTaken(posts, submission.url) {
        return Failure(DuplicateUrl);
      }
      InsertAndRevalidate(NewPost(nextId, submission, user, now));
      r := Success(SubmitPostResult(true));
    }

    /** `insertOne` of a fresh post under the next id, then `revalidateTag("posts")`. */
    method InsertAndRevalidate(d: Doc)
      requires Valid()
      requires d.id == nextId && WellFormed(d) && !UrlTaken(posts, d.url)
      modifies this
      ensures Valid()
      ensures posts == old(posts) + [d] && nextId == old(nextId) + 1
      ensures revalidations == old(revalidations) + 1
    {
      InsertKeepsValid(posts, nextId, d);
      posts := posts + [d];
      nextId := nextId + 1;
      revalidations := revalidations + 1;
    }

    /** `voteOnPost`: check the session, find the post, then toggle the
        caller's vote. Only that post's `points` and `votes` change. */
    method VoteOnPost(session: Option<User>, postId: PostId) returns (r: Result<VoteState, Error>)
      requires Valid()
      modifies this
      ensures Valid() && nextId == old(nextId)
      ensures session.None? ==> r == Failure(Unauthorized)
      ensures session.Some? && FindById(old(posts), postId).None? ==> r == Failure(PostNotFound)
      ensures r.Failure? ==> posts == old(posts) && revalidations == old(revalidations)
      ensures session.Some? && FindById(old(posts), postId).Some? ==>
                var i := FindById(old(posts), postId).value;
                var t := ToggleVote(old(posts)[i], session.value.id);
                && r == Success(t.result)
                && posts == old(posts)[i := t.doc]
                && revalidations == old(revalidations) + 1
    {
      if session.None? {
        return Failure(Unauthorized);
      }
      var found := FindById(posts, postId);
      if found.None? {
        return Failure(PostNotFound);
      }
      var i := found.value;
      var post := posts[i];
      var userId := session.value.id;
      var votes := VotesOf(post);
      var hasVoted := userId in votes;
      var newPoints := PointsOf(post);
      var newVotes;
      if hasVoted {
        newVotes := Without(votes, userId);
        newPoints := Max(0, newPoints - 1);
      } else {
        newVotes := votes + [userId];
        newPoints := newPoints + 1;
      }
      ToggleAtKeepsValid(posts, i, userId);
      posts := posts[i := post.(points := Some(newPoints), votes := Some(newVotes))];
      revalidations := revalidations + 1;
      r := Success(VoteState(newPoints, !hasVoted));
    }
  }

  /** Submitting the same url twice: the second submission is refused and the
      collection holds one post with that url. */
  method SubmitTwice(title: string, url: string, author: User, parsesAsUrl: string -> bool)
    returns (first: Result<SubmitPostResult, Error>, second: Result<SubmitPostResult, Error>, withUrl: nat)
    requires ParseSubmission(title, url, parsesAsUrl).Success?
    ensures first.Success? && second == Failure(DuplicateUrl) && withUrl == 1
  {
    var submission := ParseSubmission(title, url, parsesAsUrl).value;
    var store := new PostStore();
    assert SubmitDecision(store.posts, Some(author), title, url, parsesAsUrl) == Success(submission);
    first := store.SubmitPost(Some(author), title, url, 0, parsesAsUrl);
    var stored := [NewPost(0, submission, author, 0)];
    assert store.posts == stored;
    assert UrlTaken(stored, submission.url) by {
      assert stored[0].url == submission.url;
    }
    assert SubmitDecision(stored, Some(author), title, url, parsesAsUrl) == Failure(DuplicateUrl);
    second := store.SubmitPost(Some(author), title, url, 1, parsesAsUrl);
    OnePostWithUrl(store.posts, Trim(url));
    withUrl := |set i | 0 <= i < |store.posts| && store.posts[i].url == Trim(url)|;
  }

  /** A collection of one post holds one post with that post's url. */
  lemma OnePostWithUrl(posts: seq<Doc>, url: string)
    requires |posts| == 1 && posts[0].url == url
    ensures |set i | 0 <= i < |posts| && posts[i].url == url| == 1
  {
    assert (set i | 0 <= i < |posts| && posts[i].url == url) == {0};
  }
}
