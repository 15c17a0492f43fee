/** components/PostList.tsx: the client-side list, its loading and empty
    states, the numbering, and the `handleVote` updater that sets one post's
    points and re-sorts. */
module PostList {
  import opened Wrappers
  import opened Ranking

  datatype VoteType = Up | Down
  datatype Vote = Vote(userId: string, voteType: VoteType)

  /** The component's own `Post` shape. `submittedAt` is in milliseconds. */
  datatype ListedPost = ListedPost(
    id: string,
    title: string,
    url: Option<string>,
    points: int,
    submittedBy: string,
    submittedAt: int,
    votes: seq<Vote>)

  /** The comparator `b.points - a.points || b.submittedAt - a.submittedAt`:
      points descending, then submission time descending. */
  function PostKey(p: ListedPost): RankKey {
    RankKey(Some(p.points), p.submittedAt)
  }

  /** `prevPosts.map(...)`: the post with id `postId` gets `newPoints`; every other
      post, and every other field, stays as it was. */
  function WithPoints(posts: seq<ListedPost>, postId: string, newPoints: int): (r: seq<ListedPost>)
    ensures |r| == |posts|
    ensures forall i :: 0 <= i < |r| ==>
              r[i] == (if posts[i].id == postId then posts[i].(points := newPoints) else posts[i])
  {
    seq(|posts|, i requires 0 <= i < |posts| =>
      if posts[i].id == postId then posts[i].(points := newPoints) else posts[i])
  }

  /** The ids of `posts`, in order. */
  function Ids(posts: seq<ListedPost>): (ids: seq<string>)
    ensures |ids| == |posts| && forall i :: 0 <= i < |posts| ==> ids[i] == posts[i].id
  {
    seq(|posts|, i requires 0 <= i < |posts| => posts[i].id)
  }

  /** The `handleVote` updater: map, then sort. The result is the mapped list
      rearranged into ranking order, and it holds the same ids as before. */
  function UpdatedPosts(posts: seq<ListedPost>, postId: string, newPoints: int): (r: seq<ListedPost>)
    ensures |r| == |posts|
    ensures multiset(r) == multiset(WithPoints(posts, postId, newPoints))
    ensures SortedBy(r, PostKey)
    ensures multiset(Ids(r)) == multiset(Ids(posts))
  {
    var mapped := WithPoints(posts, postId, newPoints);
    var r := SortBy(mapped, PostKey);
    SameElementsSameIds(r, mapped);
    assert Ids(mapped) == Ids(posts);
    r
  }

  /** Lists with the same elements have the same ids. */
  lemma {:induction false} SameElementsSameIds(s: seq<ListedPost>, t: seq<ListedPost>)
    requires multiset(s) == multiset(t)
    ensures multiset(Ids(s)) == multiset(Ids(t))
    decreases |s|
  {
    if s == [] {
      assert |t| == |multiset(t)| == 0;
    } else {
      assert s[0] in multiset(t);
      var j :| 0 <= j < |t| && t[j] == s[0];
      var rest := t[..j] + t[j + 1..];
      assert t == t[..j] + [t[j]] + t[j + 1..];
      assert s == [s[0]] + s[1..];
      calc {
        multiset(s[1..]);
        multiset(s) - multiset{s[0]};
        multiset(t) - multiset{t[j]};
        { assert multiset(t) == multiset(t[..j]) + multiset{t[j]} + multiset(t[j + 1..]); }
        multiset(rest);
      }
      SameElementsSameIds(s[1..], rest);
      IdsAppend([s[0]], s[1..]);
      IdsAppend(t[..j] + [t[j]], t[j + 1..]);
      IdsAppend(t[..j], [t[j]]);
      IdsAppend(t[..j], t[j + 1..]);
    }
  }

  lemma IdsAppend(a: seq<ListedPost>, b: seq<ListedPost>)
    ensures Ids(a + b) == Ids(a) + Ids(b)
  {
  }

  /** Repeating the same update changes nothing more: the post already has the
      new points, and a sorted list stays as it is. */
  lemma UpdateIsIdempotent(posts: seq<ListedPost>, postId: string, newPoints: int)
    ensures var once := UpdatedPosts(posts, postId, newPoints);
            UpdatedPosts(once, postId, newPoints) == once
  {
    var once := UpdatedPosts(posts, postId, newPoints);
    var mapped := WithPoints(posts, postId, newPoints);
    forall i | 0 <= i < |once| && once[i].id == postId
      ensures once[i].points == newPoints
    {
      assert once[i] in multiset(mapped);
      var k :| 0 <= k < |mapped| && mapped[k] == once[i];
    }
    assert WithPoints(once, postId, newPoints) == once;
    SortSortedIsIdentity(once, PostKey);
  }

  /** One numbered row of the list. */
  datatype Row = Row(number: int, post: ListedPost)

  /** What the component renders. */
  datatype ListView = LoadingMessage | NoPostsMessage | Rows(rows: seq<Row>)

  /** The component's two state cells, `posts` and `loading`. */
  class PostListState {
    var posts: seq<ListedPost>
    var loading: bool

    /** `useState([])` and `useState(true)`. */
    constructor ()
      ensures posts == [] && loading
    {
      posts := [];
      loading := true;
    }

    /** The render: "Loading posts..." while loading, "No posts yet" when there
        is nothing to show, otherwise the posts numbered from 1 in list order. */
    function View(): (v: ListView)
      reads this
      ensures v.LoadingMessage? <==> loading
      ensures v.NoPostsMessage? <==> !loading && |posts| == 0
      ensures v.Rows? ==>
                && |v.rows| == |posts| >= 1
                && forall i :: 0 <= i < |v.rows| ==> v.rows[i] == Row(i + 1, posts[i])
    {
      if loading then LoadingMessage
      else if |posts| == 0 then NoPostsMessage
      else
        var shown := posts;
        Rows(seq(|shown|, i requires 0 <= i < |shown| => Row(i + 1, shown[i])))
    }

    /** The end of `fetchPosts`: the fetched list replaces the old one when the
        response was OK, and loading stops either way. */
    method FetchSettled(fetched: Option<seq<ListedPost>>)
      modifies this
      ensures posts == (if fetched.Some? then fetched.value else old(posts))
      ensures !loading
    {
      if fetched.Some? {
        posts := fetched.value;
      }
      loading := false;
    }

    /** `handleVote(postId, newPoints)`: the list becomes the updater's result. */
    method HandleVote(postId: string, newPoints: int)
      modifies this
      ensures posts == UpdatedPosts(old(posts), postId, newPoints)
      ensures loading == old(loading)
    {
      posts := UpdatedPosts(posts, postId, newPoints);
    }
  }
}
