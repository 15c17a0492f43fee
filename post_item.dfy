/** components/PostItem.tsx: one post's vote button with its optimistic state,
    the point/points label and the local copy of getTimeAgo. */
module PostItem {
  import opened Wrappers
  import opened Text
  import opened Schemas
  import Actions
  import Posts
  import Utils

  /** `OptimisticVote`: what the button shows. The post handed to the item is
      a listed document, whose `points` may be missing: None stands for a
      value that is not a number (`undefined`, and NaN once moved by 1). */
  datatype OptimisticVote = OptimisticVote(points: Option<int>, hasVoted: bool)

  /** `initialVoteData`: the post's points, and whether the signed-in user (if
      any) is among its voters. A listed post always carries its votes. */
  function InitialVoteData(post: Doc, session: Option<Actions.User>): (v: OptimisticVote)
    ensures v.points == post.points
    ensures v.hasVoted <==> session.Some? && session.value.id in post.votes.GetOr([])
  {
    OptimisticVote(post.points, if session.Some? then session.value.id in post.votes.GetOr([]) else false)
  }

  /** `points + change`: a number moves by `change`, anything else stays not a number. */
  function Moved(points: Option<int>, change: int): (r: Option<int>)
    ensures r.Some? <==> points.Some?
    ensures r.Some? ==> r.value - points.value == change
  {
    if points.Some? then Some(points.value + change) else None
  }

  /** The optimistic toggle: flip `hasVoted`, and move the points by -1 when
      the vote is withdrawn and +1 when it is cast, with no floor at 0. */
  function Flipped(v: OptimisticVote): (r: OptimisticVote)
    ensures r.hasVoted == !v.hasVoted
    ensures r.points.Some? <==> v.points.Some?
    ensures r.points.Some? ==> r.points.value - v.points.value == (if r.hasVoted then 1 else -1)
  {
    var pointChange := if v.hasVoted then -1 else 1;
    OptimisticVote(Moved(v.points, pointChange), !v.hasVoted)
  }

  /** Two optimistic toggles show the original state again. */
  lemma FlipTwiceRestores(v: OptimisticVote)
    ensures Flipped(Flipped(v)) == v
  {
  }

  /** The optimistic state the button shows for a listed post is what the
      server's `voteOnPost` returns, as long as the stored post has its points
      and the floor at 0 does not apply (at least 1 when the vote is withdrawn). */
  lemma OptimisticMatchesServer(d: Doc, user: Actions.User)
    requires d.points.Some?
    requires user.id in Actions.VotesOf(d) ==> d.points.value >= 1
    ensures var shown := Flipped(InitialVoteData(Posts.ForResponse(d), Some(user)));
            var server := Actions.ToggleVote(d, user.id).result;
            shown.points == Some(server.points) && shown.hasVoted == server.hasVoted
  {
    var listed := Posts.ForResponse(d);
    assert listed.votes.GetOr([]) == Actions.VotesOf(d);
    assert listed.points.value == Actions.PointsOf(d);
  }

  /** A stored post without `points` shows no number, before the vote and
      after the optimistic toggle, while the server counts it from 0. */
  lemma MissingPointsShowNoNumber(d: Doc, user: Actions.User)
    requires d.points.None?
    ensures var initial := InitialVoteData(Posts.ForResponse(d), Some(user));
            initial.points.None? && Flipped(initial).points.None?
    ensures Actions.ToggleVote(d, user.id).result.points
              == (if user.id in Actions.VotesOf(d) then 0 else 1)
  {
    assert Actions.PointsOf(d) == 0;
  }

  /** `(state, newVote) => newVote`: the reducer given to `useOptimistic`. */
  function Reducer(state: OptimisticVote, newVote: OptimisticVote): OptimisticVote {
    newVote
  }

  /** The button's state: the value passed to `useOptimistic` (from the post as
      last rendered) and the optimistic value while a transition is pending. */
  class VoteButton {
    var base: OptimisticVote
    var optimistic: Option<OptimisticVote>

    /** `isPending` of `useTransition`. */
    predicate IsPending()
      reads this
    {
      optimistic.Some?
    }

    /** `optimisticVote`: the optimistic value while pending, else the base value. */
    function Shown(): (v: OptimisticVote)
      reads this
      ensures IsPending() ==> v == optimistic.value
      ensures !IsPending() ==> v == base
    {
      optimistic.GetOr(base)
    }

    constructor (post: Doc, session: Option<Actions.User>)
      ensures base == InitialVoteData(post, session) && !IsPending()
    {
      base := InitialVoteData(post, session);
      optimistic := None;
    }

    /** `handleVote`: nothing happens without a user or while a vote is in
        flight; otherwise the transition starts and shows the toggled state. */
    method HandleVote(session: Option<Actions.User>)
      modifies this
      ensures base == old(base)
      ensures session.None? || old(IsPending()) ==> optimistic == old(optimistic)
      ensures session.Some? && !old(IsPending()) ==>
                IsPending() && Shown() == Flipped(old(Shown()))
    {
      if session.None? || optimistic.Some? {
        return;
      }
      var currentlyVoted := Shown().hasVoted;
      var pointChange := if currentlyVoted then -1 else 1;
      var newVote := OptimisticVote(Moved(Shown().points, pointChange), !currentlyVoted);
      optimistic := Some(Reducer(Shown(), newVote));
    }

    /** The transition ends (the server action returned or threw): the
        optimistic value is dropped and the button shows the post as rendered
        next, which is the old one if the action failed. */
    method TransitionEnd(rendered: Doc, session: Option<Actions.User>)
      modifies this
      ensures !IsPending() && Shown() == InitialVoteData(rendered, session)
    {
      optimistic := None;
      base := InitialVoteData(rendered, session);
    }
  }

  /** The label next to the points: "point" exactly when there is one. */
  function PointsLabel(points: Option<int>): (s: string)
    ensures s == "point" <==> points == Some(1)
    ensures s == "point" || s == "points"
  {
    if points == Some(1) then "point" else "points"
  }

  /** The component's own `getTimeAgo`, written out as in the component. */
  function GetTimeAgo(nowMs: int, dateMs: int): string {
    var diffInSeconds := (nowMs - dateMs) / 1000;
    if diffInSeconds < 60 then
      IntToString(diffInSeconds) + " seconds ago"
    else if diffInSeconds < 3600 then
      var minutes := diffInSeconds / 60;
      IntToString(minutes) + " minute" + (if minutes == 1 then "" else "s") + " ago"
    else if diffInSeconds < 86400 then
      var hours := diffInSeconds / 3600;
      IntToString(hours) + " hour" + (if hours == 1 then "" else "s") + " ago"
    else if diffInSeconds < 2592000 then
      var days := diffInSeconds / 86400;
      IntToString(days) + " day" + (if days == 1 then "" else "s") + " ago"
    else
      var months := diffInSeconds / 2592000;
      IntToString(months) + " month" + (if months == 1 then "" else "s") + " ago"
  }

  /** The local copy says the same as `lib/utils.ts` at every instant. */
  lemma LocalTimeAgoAgrees(nowMs: int, dateMs: int)
    ensures GetTimeAgo(nowMs, dateMs) == Utils.GetTimeAgo(nowMs, dateMs)
  {
    var d := (nowMs - dateMs) / 1000;
    if d < 60 {
      SecondsAgree(nowMs, dateMs);
    } else {
      UnitsAgree(nowMs, dateMs);
    }
  }

  lemma SecondsAgree(nowMs: int, dateMs: int)
    requires (nowMs - dateMs) / 1000 < 60
    ensures GetTimeAgo(nowMs, dateMs) == Utils.GetTimeAgo(nowMs, dateMs)
  {
    var a := Utils.Bucket((nowMs - dateMs) / 1000);
    var n := IntToString(a.count);
    assert Utils.Phrase(a) == n + " " + "second" + "s" + " ago";
    assert " " + "second" == " second";
    Regroup(n, "second", "s");
    assert " second" + "s" + " ago" == " seconds ago";
    assert n + " second" + "s" + " ago" == n + (" second" + "s" + " ago");
  }

  lemma UnitsAgree(nowMs: int, dateMs: int)
    requires (nowMs - dateMs) / 1000 >= 60
    ensures GetTimeAgo(nowMs, dateMs) == Utils.GetTimeAgo(nowMs, dateMs)
  {
    var a := Utils.Bucket((nowMs - dateMs) / 1000);
    UtilsPhraseRegrouped(a);
    LocalUnitsPhrase(nowMs, dateMs);
  }

  /** The phrase of lib/utils.ts with the space joined to the unit word. */
  lemma UtilsPhraseRegrouped(a: Utils.Ago)
    requires a.unit != Utils.Seconds
    ensures Utils.Phrase(a) == IntToString(a.count) + (" " + Utils.UnitWord(a.unit))
                               + (if a.count == 1 then "" else "s") + " ago"
  {
    Regroup(IntToString(a.count), Utils.UnitWord(a.unit), if a.count == 1 then "" else "s");
  }

  /** Past the first minute, the local copy writes the bucket's count and unit. */
  lemma LocalUnitsPhrase(nowMs: int, dateMs: int)
    requires (nowMs - dateMs) / 1000 >= 60
    ensures var a := Utils.Bucket((nowMs - dateMs) / 1000);
            GetTimeAgo(nowMs, dateMs) == IntToString(a.count) + (" " + Utils.UnitWord(a.unit))
                                         + (if a.count == 1 then "" else "s") + " ago"
  {
    var d := (nowMs - dateMs) / 1000;
    if d < 3600 {
      assert " " + "minute" == " minute";
    } else if d < 86400 {
      assert " " + "hour" == " hour";
    } else if d < 2592000 {
      assert " " + "day" == " day";
    } else {
      assert " " + "month" == " month";
    }
  }

  /** Joining the space to the unit word first changes nothing. */
  lemma Regroup(n: string, word: string, s: string)
    ensures n + " " + word + s + " ago" == n + (" " + word) + s + " ago"
  {
    assert n + " " + word == n + (" " + word);
  }
}
