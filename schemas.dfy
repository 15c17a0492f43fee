/** lib/schemas.ts: the shape of a post, the validation of a submission, and
    the small records the other components exchange. */
module Schemas {
  import opened Wrappers
  import opened Text

  /** An authenticated user's id, the key of authorship and of votes. */
  type UserId = string

  /** A post's `_id`. The store assigns it; its ObjectId form is abstracted to a number. */
  type PostId = nat

  /** A document of the `posts` collection as the store holds it. `points` and
      `votes` are optional: a document written by other means may lack them.
      `submittedAt` is a time in milliseconds. */
  datatype Doc = Doc(
    id: PostId,
    title: string,
    url: string,
    points: Option<int>,
    submittedById: UserId,
    submittedByName: string,
    submittedAt: int,
    votes: Option<seq<UserId>>)

  /** The `Post` type that PostSchema describes, every field present. */
  datatype Post = Post(
    id: PostId,
    title: string,
    url: string,
    points: int,
    submittedById: UserId,
    submittedByName: string,
    submittedAt: int,
    votes: seq<UserId>)

  /** `PostSchema.parse` on a stored document: a missing `points` defaults to 1,
      a missing `votes` to the empty list, and every other field is kept. */
  function ParsePost(d: Doc): (p: Post)
    ensures p.id == d.id && p.title == d.title && p.url == d.url
    ensures p.submittedById == d.submittedById && p.submittedByName == d.submittedByName
    ensures p.submittedAt == d.submittedAt
    ensures p.points == (if d.points.Some? then d.points.value else 1)
    ensures p.votes == (if d.votes.Some? then d.votes.value else [])
  {
    Post(d.id, d.title, d.url, d.points.GetOr(1), d.submittedById, d.submittedByName,
         d.submittedAt, d.votes.GetOr([]))
  }

  /** A submission after PostSubmissionSchema has accepted and trimmed it. */
  datatype Submission = Submission(title: string, url: string)

  const MaxTitleLength := 300

  /** A check of PostSubmissionSchema that failed. */
  datatype Issue = TitleRequired | TitleTooLong | UrlRequired | InvalidUrl

  /** The message each check reports. */
  function IssueMessage(i: Issue): string {
    match i
    case TitleRequired => "Title is required"
    case TitleTooLong => "Title must be less than 300 characters"
    case UrlRequired => "URL is required"
    case InvalidUrl => "Please enter a valid URL"
  }

  /** The title checks, in chain order, on the string as submitted (before `.trim()`). */
  function TitleIssues(title: string): (issues: seq<Issue>)
    ensures TitleRequired in issues <==> |title| == 0
    ensures TitleTooLong in issues <==> |title| > MaxTitleLength
    ensures UrlRequired !in issues && InvalidUrl !in issues
    ensures issues == [] <==> 1 <= |title| <= MaxTitleLength
  {
    (if |title| < 1 then [TitleRequired] else [])
    + (if |title| > MaxTitleLength then [TitleTooLong] else [])
  }

  /** The url checks: `min(1)` on the string as submitted, then the URL check on
      the trimmed string. The refinement still runs after `min(1)` failed, so an
      empty url carries both issues. */
  function UrlIssues(url: string, parsesAsUrl: string -> bool): (issues: seq<Issue>)
    ensures UrlRequired in issues <==> |url| == 0
    ensures InvalidUrl in issues <==> !parsesAsUrl(Trim(url))
    ensures TitleRequired !in issues && TitleTooLong !in issues
    ensures issues == [] <==> |url| >= 1 && parsesAsUrl(Trim(url))
  {
    (if |url| < 1 then [UrlRequired] else [])
    + (if parsesAsUrl(Trim(url)) then [] else [InvalidUrl])
  }

  /** `PostSubmissionSchema.parse({title, url})`. `parsesAsUrl` says whether
      `new URL(s)` succeeds. Either both fields pass and come back trimmed, or
      the parse fails with every issue found, title issues first. */
  function ParseSubmission(title: string, url: string, parsesAsUrl: string -> bool)
    : (r: Result<Submission, seq<Issue>>)
    ensures r.Success? <==> 1 <= |title| <= MaxTitleLength && |url| >= 1 && parsesAsUrl(Trim(url))
    ensures r.Success? ==> r.value == Submission(Trim(title), Trim(url))
    ensures r.Failure? ==> r.error != []
  {
    var issues := TitleIssues(title) + UrlIssues(url, parsesAsUrl);
    NoIssuesIffBothPass(title, url, parsesAsUrl);
    if issues == [] then Success(Submission(Trim(title), Trim(url))) else Failure(issues)
  }

  /** No issue at all exactly when the title and the url checks all pass. */
  lemma NoIssuesIffBothPass(title: string, url: string, parsesAsUrl: string -> bool)
    ensures TitleIssues(title) + UrlIssues(url, parsesAsUrl) == []
            <==> 1 <= |title| <= MaxTitleLength && |url| >= 1 && parsesAsUrl(Trim(url))
  {
    var titleIssues, urlIssues := TitleIssues(title), UrlIssues(url, parsesAsUrl);
    assert titleIssues + urlIssues == [] <==> titleIssues == [] && urlIssues == [];
  }

  /** A refused submission names exactly the checks that failed. */
  lemma RejectionNamesFailedChecks(title: string, url: string, parsesAsUrl: string -> bool)
    requires ParseSubmission(title, url, parsesAsUrl).Failure?
    ensures var issues := ParseSubmission(title, url, parsesAsUrl).error;
            && (TitleRequired in issues <==> |title| == 0)
            && (TitleTooLong in issues <==> |title| > MaxTitleLength)
            && (UrlRequired in issues <==> |url| == 0)
            && (InvalidUrl in issues <==> !parsesAsUrl(Trim(url)))
  {
    var titleIssues, urlIssues := TitleIssues(title), UrlIssues(url, parsesAsUrl);
    assert ParseSubmission(title, url, parsesAsUrl).error == titleIssues + urlIssues;
  }

  /** An accepted submission is trimmed, its title holds at most 300 characters,
      and its url is one that parses. */
  lemma AcceptedSubmissionIsClean(title: string, url: string, parsesAsUrl: string -> bool)
    requires ParseSubmission(title, url, parsesAsUrl).Success?
    ensures var v := ParseSubmission(title, url, parsesAsUrl).value;
            && Trim(v.title) == v.title && Trim(v.url) == v.url
            && |v.title| <= MaxTitleLength && parsesAsUrl(v.url)
  {
    TrimIdempotent(title);
    TrimIdempotent(url);
  }

  /** A url of only whitespace passes `min(1)`, trims to the empty string and is
      then refused by the URL check (the empty string is not a URL). */
  lemma BlankUrlRejected(title: string, url: string, parsesAsUrl: string -> bool)
    requires |url| >= 1 && AllWhitespace(url) && !parsesAsUrl("")
    ensures var r := ParseSubmission(title, url, parsesAsUrl);
            r.Failure? && InvalidUrl in r.error && UrlRequired !in r.error
  {
    TrimEmptyIffBlank(url);
  }

  /** A title of only whitespace passes both length checks, which see the
      untrimmed string, and is accepted as the empty title. */
  lemma BlankTitleAccepted(title: string, url: string, parsesAsUrl: string -> bool)
    requires 1 <= |title| <= MaxTitleLength && AllWhitespace(title)
    requires |url| >= 1 && parsesAsUrl(Trim(url))
    ensures var r := ParseSubmission(title, url, parsesAsUrl);
            r.Success? && r.value.title == ""
  {
    TrimEmptyIffBlank(title);
  }

  /** `{points, hasVoted}`: the outcome of a vote (VoteResult) and the optimistic
      state a post item shows (OptimisticVote) share this shape. */
  datatype VoteState = VoteState(points: int, hasVoted: bool)

  /** `{success}`, what a successful submission returns. */
  datatype SubmitPostResult = SubmitPostResult(success: bool)

  /** The pagination block of a listing response. */
  datatype PaginationInfo = PaginationInfo(
    currentPage: int,
    totalPages: int,
    totalCount: int,
    hasNextPage: bool,
    hasPrevPage: bool)

  /** A page of posts with its pagination block. */
  datatype PostsResponse = PostsResponse(posts: seq<Doc>, pagination: PaginationInfo)
}
