/**
  The extraction core of the trending-developers scraper: each listing row
  (an `article.Box-row` element of the fetched page) becomes one developer
  record, with a fixed fallback for every sub-node that may be missing; rows
  with neither a name nor a username are dropped, and rows whose parsing
  raises are skipped with a warning. The markup library is replaced by an
  abstract row whose optional fields say which sub-nodes exist.
 */
module Scraper {
  import opened Options
  import opened Text

  /** Prefixed to a profile link's `href` to make it absolute. */
  const GitHubOrigin: string := "https://github.com"

  /** An `a` element: its text and its `href` attribute. */
  datatype Link = Link(text: string, href: string)

  /** An `h1` element (`h1.h3` for the name, `h1.h4` for the repository): its whole text and its first link. */
  datatype Heading = Heading(text: string, link: Option<Link>)

  /** The `p.f4` element holding the username: only its first link is read. */
  datatype HandleParagraph = HandleParagraph(link: Option<Link>)

  /** The `img.avatar-user` element: its `src` attribute, if it has one. */
  datatype Avatar = Avatar(src: Option<string>)

  /** The nested `article` describing the developer's popular repository. */
  datatype RepoArticle = RepoArticle(heading: Option<Heading>, description: Option<string>)

  /**
    One `article.Box-row` element: the sub-nodes the scraper looks for, each
    possibly absent, or a row whose parsing raises an exception.
   */
  datatype Element =
    | Row(heading: Option<Heading>, handle: Option<HandleParagraph>, avatar: Option<Avatar>, repo: Option<RepoArticle>)
    | Malformed(reason: string)

  /** The record built for one row; its keys are the eight output fields. */
  datatype Developer = Developer(
    rank: nat,
    name: string,
    profileUrl: string,
    username: string,
    avatarUrl: string,
    popularRepo: string,
    repoDescription: string,
    scrapedAt: string)

  /** What parsing one row gives: a kept record, a record with no identity, or an exception. */
  datatype RowOutcome = Accepted(developer: Developer) | Anonymous | Raised(reason: string)

  /** What fetching the page gives: its rows, or the message of the failure. */
  datatype Page = Fetched(rows: seq<Element>) | Unavailable(message: string)

  /** The timestamp `datetime.now().isoformat()` would give when the row at a position is kept. */
  type Clock = nat -> string

  function LinkOrHeadingText(h: Heading): string {
    match h.link
    case Some(link) => Strip(link.text)
    case None => Strip(h.text)
  }

  function NameAndProfile(heading: Option<Heading>): (string, string) {
    match heading
    case None => ("", "")
    case Some(h) =>
      match h.link
      case Some(link) => (Strip(link.text), GitHubOrigin + link.href)
      case None => (Strip(h.text), "")
  }

  function UsernameOf(handle: Option<HandleParagraph>): string {
    match handle
    case None => ""
    case Some(p) => if p.link.Some? then Strip(p.link.value.text) else ""
  }

  function AvatarUrlOf(avatar: Option<Avatar>): string {
    match avatar
    case None => ""
    case Some(img) => if img.src.Some? then img.src.value else ""
  }

  function RepoOf(repo: Option<RepoArticle>): (string, string) {
    match repo
    case None => ("", "")
    case Some(article) =>
      var popular := if article.heading.Some? then LinkOrHeadingText(article.heading.value) else "";
      var description := if article.description.Some? then Strip(article.description.value) else "";
      (popular, description)
  }

  /** The record the scraper builds field by field for a row that does not raise. */
  function Candidate(e: Element, rank: nat, stamp: string): (d: Developer)
    requires e.Row?
    ensures d.rank == rank && d.scrapedAt == stamp
    // the name heading: link text and absolute profile link, else heading text and no link, else nothing
    ensures e.heading.None? ==> d.name == "" && d.profileUrl == ""
    ensures e.heading.Some? && e.heading.value.link.Some? ==>
              d.name == Strip(e.heading.value.link.value.text)
              && d.profileUrl == GitHubOrigin + e.heading.value.link.value.href
    ensures e.heading.Some? && e.heading.value.link.None? ==>
              d.name == Strip(e.heading.value.text) && d.profileUrl == ""
    ensures d.profileUrl != "" <==> e.heading.Some? && e.heading.value.link.Some?
    // the username: the link inside the paragraph, or nothing if either is missing
    ensures d.username == if e.handle.Some? && e.handle.value.link.Some?
                          then Strip(e.handle.value.link.value.text) else ""
    // the avatar: the image's src, defaulting to the empty string
    ensures d.avatarUrl == if e.avatar.Some? && e.avatar.value.src.Some? then e.avatar.value.src.value else ""
    // the popular repository: both empty without the nested article
    ensures e.repo.None? ==> d.popularRepo == "" && d.repoDescription == ""
    ensures e.repo.Some? && e.repo.value.heading.None? ==> d.popularRepo == ""
    ensures e.repo.Some? && e.repo.value.heading.Some? && e.repo.value.heading.value.link.Some? ==>
              d.popularRepo == Strip(e.repo.value.heading.value.link.value.text)
    ensures e.repo.Some? && e.repo.value.heading.Some? && e.repo.value.heading.value.link.None? ==>
              d.popularRepo == Strip(e.repo.value.heading.value.text)
    ensures e.repo.Some? ==>
              d.repoDescription == if e.repo.value.description.Some? then Strip(e.repo.value.description.value) else ""
  {
    var (name, profileUrl) := NameAndProfile(e.heading);
    var (popularRepo, repoDescription) := RepoOf(e.repo);
    Developer(rank, name, profileUrl, UsernameOf(e.handle), AvatarUrlOf(e.avatar), popularRepo, repoDescription, stamp)
  }

  /** Every text field of a record is whitespace-trimmed at its edges. */
  lemma CandidateStripped(e: Element, rank: nat, stamp: string)
    requires e.Row?
    ensures var d := Candidate(e, rank, stamp);
            IsStripped(d.name) && IsStripped(d.username) && IsStripped(d.popularRepo) && IsStripped(d.repoDescription)
  {
  }

  /** Parses one row, given its 1-based rank and the time at which it would be kept. */
  function ParseRow(e: Element, rank: nat, stamp: string): (r: RowOutcome)
    ensures r.Raised? <==> e.Malformed?
    ensures r.Accepted? ==> e.Row? && r.developer == Candidate(e, rank, stamp) && r.developer.rank == rank
    ensures r.Accepted? ==> r.developer.name != "" || r.developer.username != ""
    ensures e.Row? ==> (r.Anonymous? <==> Candidate(e, rank, stamp).name == "" && Candidate(e, rank, stamp).username == "")
  {
    match e
    case Malformed(reason) => Raised(reason)
    case Row(_, _, _, _) =>
      var d := Candidate(e, rank, stamp);
      if d.name != "" || d.username != "" then Accepted(d) else Anonymous
  }

  /** The ranks of kept records count row positions from 1. */
  ghost predicate Positional(outcomes: seq<RowOutcome>) {
    forall i :: 0 <= i < |outcomes| && outcomes[i].Accepted? ==> outcomes[i].developer.rank == i + 1
  }

  /** The outcome of each row in document order; the row at position `i` gets rank `i + 1` before filtering. */
  function Outcomes(rows: seq<Element>, clock: Clock): (outcomes: seq<RowOutcome>)
    ensures |outcomes| == |rows| && Positional(outcomes)
  {
    var outcomes := seq(|rows|, i requires 0 <= i < |rows| => ParseRow(rows[i], i + 1, clock(i)));
    assert Positional(outcomes) by {
      forall i | 0 <= i < |outcomes| && outcomes[i].Accepted?
        ensures outcomes[i].developer.rank == i + 1
      {
        assert outcomes[i] == ParseRow(rows[i], i + 1, clock(i));
      }
    }
    outcomes
  }

  /** The outcome at position `i` is the parse of row `i` under rank `i + 1`. */
  lemma OutcomeAt(rows: seq<Element>, clock: Clock, i: nat)
    requires i < |rows|
    ensures Outcomes(rows, clock)[i] == ParseRow(rows[i], i + 1, clock(i))
  {
  }

  function Kept(o: RowOutcome): seq<Developer> {
    if o.Accepted? then [o.developer] else []
  }

  /** The records kept from the first `n` outcomes, in document order. */
  function Extracted(outcomes: seq<RowOutcome>, n: nat): seq<Developer>
    requires n <= |outcomes|
  {
    if n == 0 then [] else Extracted(outcomes, n - 1) + Kept(outcomes[n - 1])
  }

  /** The 1-based numbers of the rows among the first `n` whose parsing raised, as the warnings name them. */
  function Warnings(outcomes: seq<RowOutcome>, n: nat): seq<nat>
    requires n <= |outcomes|
  {
    if n == 0 then [] else Warnings(outcomes, n - 1) + (if outcomes[n - 1].Raised? then [n] else [])
  }

  /** The records the scraper returns for a fetched listing. */
  function Developers(rows: seq<Element>, clock: Clock): seq<Developer> {
    Extracted(Outcomes(rows, clock), |rows|)
  }

  function Ranks(ds: seq<Developer>): (rs: seq<nat>)
    ensures |rs| == |ds| && forall j :: 0 <= j < |ds| ==> rs[j] == ds[j].rank
  {
    if ds == [] then [] else [ds[0].rank] + Ranks(ds[1..])
  }

  /**
    The listing loop: every row is parsed in turn, its rank counted from its
    position whether it is kept, dropped or raises; a failed fetch yields no
    records.
   */
  method ScrapeTrendingDevelopers(page: Page, clock: Clock) returns (developers: seq<Developer>, warnings: seq<nat>)
    ensures page.Unavailable? ==> developers == [] && warnings == []
    ensures page.Fetched? ==> developers == Developers(page.rows, clock)
    ensures page.Fetched? ==> warnings == Warnings(Outcomes(page.rows, clock), |page.rows|)
  {
    developers, warnings := [], [];
    match page
    case Unavailable(_) =>
    case Fetched(rows) =>
      ghost var outcomes := Outcomes(rows, clock);
      var i: nat := 0;
      while i < |rows|
        invariant 0 <= i <= |rows|
        invariant developers == Extracted(outcomes, i)
        invariant warnings == Warnings(outcomes, i)
      {
        var outcome := ParseRow(rows[i], i + 1, clock(i));
        OutcomeAt(rows, clock, i);
        assert Extracted(outcomes, i + 1) == developers + Kept(outcome);
        assert Warnings(outcomes, i + 1) == warnings + (if outcome.Raised? then [i + 1] else []);
        if outcome.Accepted? {
          developers := developers + [outcome.developer];
        } else if outcome.Raised? {
          warnings := warnings + [i + 1];
        }
        i := i + 1;
      }
  }

  /** Every rank lies in `1..n`. */
  ghost predicate RanksWithin(ds: seq<Developer>, n: nat) {
    forall j :: 0 <= j < |ds| ==> 1 <= ds[j].rank <= n
  }

  /** Ranks strictly increase along the sequence. */
  ghost predicate StrictlyIncreasing(ds: seq<Developer>) {
    forall j, k :: 0 <= j < k < |ds| ==> ds[j].rank < ds[k].rank
  }

  /** Kept ranks lie in `1..n` and strictly increase: filtering never renumbers. */
  lemma {:induction false} ExtractedRanks(outcomes: seq<RowOutcome>, n: nat)
    requires n <= |outcomes| && Positional(outcomes)
    ensures RanksWithin(Extracted(outcomes, n), n)
    ensures StrictlyIncreasing(Extracted(outcomes, n))
  {
    if n > 0 {
      ExtractedRanks(outcomes, n - 1);
    }
  }

  /** Every kept record is the accepted outcome of the row its rank points at. */
  lemma {:induction false} ExtractedFromRow(outcomes: seq<RowOutcome>, n: nat, j: nat)
    requires n <= |outcomes| && Positional(outcomes) && j < |Extracted(outcomes, n)|
    ensures 1 <= Extracted(outcomes, n)[j].rank <= n
    ensures outcomes[Extracted(outcomes, n)[j].rank - 1] == Accepted(Extracted(outcomes, n)[j])
  {
    if j < |Extracted(outcomes, n - 1)| {
      ExtractedFromRow(outcomes, n - 1, j);
    }
  }

  /** Every accepted outcome is kept. */
  lemma {:induction false} AcceptedKept(outcomes: seq<RowOutcome>, n: nat, i: nat)
    requires i < n <= |outcomes| && outcomes[i].Accepted?
    ensures outcomes[i].developer in Extracted(outcomes, n)
  {
    if i < n - 1 {
      AcceptedKept(outcomes, n - 1, i);
    }
  }

  /** A row that raises is named by a warning, and contributes no record. */
  lemma {:induction false} WarningsName(outcomes: seq<RowOutcome>, n: nat)
    requires n <= |outcomes|
    ensures forall w :: w in Warnings(outcomes, n) ==> 1 <= w <= n && outcomes[w - 1].Raised?
    ensures forall i :: 0 <= i < n && outcomes[i].Raised? ==> i + 1 in Warnings(outcomes, n)
    ensures |Extracted(outcomes, n)| + |Warnings(outcomes, n)| <= n
  {
    if n > 0 {
      WarningsName(outcomes, n - 1);
    }
  }

  /** The scraper's records keep document order, and each rank is a row position in `1..|rows|`. */
  lemma DevelopersRanks(rows: seq<Element>, clock: Clock)
    ensures RanksWithin(Developers(rows, clock), |rows|)
    ensures StrictlyIncreasing(Developers(rows, clock))
  {
    ExtractedRanks(Outcomes(rows, clock), |rows|);
  }

  /**
    A record of rank `i + 1` is returned exactly when row `i` is accepted
    (it parses and has a name or a username after the fallbacks), and it is
    then that row's record: nothing else is dropped and nothing is renumbered.
   */
  lemma RetainedIff(rows: seq<Element>, clock: Clock, i: nat)
    requires i < |rows|
    ensures (exists j :: 0 <= j < |Developers(rows, clock)| && Developers(rows, clock)[j].rank == i + 1)
            <==> ParseRow(rows[i], i + 1, clock(i)).Accepted?
    ensures forall j :: 0 <= j < |Developers(rows, clock)| && Developers(rows, clock)[j].rank == i + 1 ==>
              ParseRow(rows[i], i + 1, clock(i)) == Accepted(Developers(rows, clock)[j])
  {
    var outcomes := Outcomes(rows, clock);
    var ds := Developers(rows, clock);
    OutcomeAt(rows, clock, i);
    forall j | 0 <= j < |ds| && ds[j].rank == i + 1
      ensures outcomes[i] == Accepted(ds[j])
    {
      ExtractedFromRow(outcomes, |rows|, j);
    }
    if outcomes[i].Accepted? {
      AcceptedKept(outcomes, |rows|, i);
      var j :| 0 <= j < |ds| && ds[j] == outcomes[i].developer;
      assert ds[j].rank == i + 1;
    }
  }

  /** The rows that raise are exactly the ones the warnings name, and none of them yields a record. */
  lemma WarningsIff(rows: seq<Element>, clock: Clock, i: nat)
    requires i < |rows|
    ensures i + 1 in Warnings(Outcomes(rows, clock), |rows|) <==> rows[i].Malformed?
    ensures |Developers(rows, clock)| + |Warnings(Outcomes(rows, clock), |rows|)| <= |rows|
  {
    OutcomeAt(rows, clock, i);
    WarningsName(Outcomes(rows, clock), |rows|);
  }

  /** A row with a linked name heading `"a"` and nothing else. */
  const NamedRow: Element := Row(Some(Heading("a", Some(Link("a", "/a")))), None, None, None)

  /** A row with none of the sub-nodes: its name and username both fall back to `""`. */
  const EmptyRow: Element := Row(None, None, None, None)

  /** The named row is kept under any rank. */
  lemma NamedRowAccepted(rank: nat, stamp: string)
    ensures ParseRow(NamedRow, rank, stamp).Accepted?
  {
    StrippedIsFixed("a");
  }

  /** Over four outcomes of which only the third raised, the kept ranks are 1, 2 and 4 and the warning names 3. */
  lemma ThirdOfFourRaised(outcomes: seq<RowOutcome>)
    requires |outcomes| == 4 && Positional(outcomes)
    requires outcomes[0].Accepted? && outcomes[1].Accepted? && outcomes[2].Raised? && outcomes[3].Accepted?
    ensures Ranks(Extracted(outcomes, 4)) == [1, 2, 4] && Warnings(outcomes, 4) == [3]
  {
    var d1, d2, d4 := outcomes[0].developer, outcomes[1].developer, outcomes[3].developer;
    assert Extracted(outcomes, 1) == [d1];
    assert Extracted(outcomes, 2) == [d1, d2];
    assert Extracted(outcomes, 3) == [d1, d2];
    assert Extracted(outcomes, 4) == [d1, d2, d4];
    assert Warnings(outcomes, 1) == [];
    assert Warnings(outcomes, 2) == [];
    assert Warnings(outcomes, 4) == [3];
  }

  /**
    Three good rows and one that raises in third place: the kept ranks are the
    original positions 1, 2 and 4, and the warning names row 3.
   */
  lemma ThirdRowRaises(clock: Clock)
    ensures Ranks(Developers([NamedRow, NamedRow, Malformed("bad row"), NamedRow], clock)) == [1, 2, 4]
    ensures Warnings(Outcomes([NamedRow, NamedRow, Malformed("bad row"), NamedRow], clock), 4) == [3]
  {
    var rows := [NamedRow, NamedRow, Malformed("bad row"), NamedRow];
    OutcomeAt(rows, clock, 0);
    OutcomeAt(rows, clock, 1);
    OutcomeAt(rows, clock, 2);
    OutcomeAt(rows, clock, 3);
    NamedRowAccepted(1, clock(0));
    NamedRowAccepted(2, clock(1));
    NamedRowAccepted(4, clock(3));
    ThirdOfFourRaised(Outcomes(rows, clock));
  }

  /** Over three outcomes of which only the middle one has no identity, the kept ranks are 1 and 3 and nothing is reported. */
  lemma MiddleOfThreeAnonymous(outcomes: seq<RowOutcome>)
    requires |outcomes| == 3 && Positional(outcomes)
    requires outcomes[0].Accepted? && outcomes[1].Anonymous? && outcomes[2].Accepted?
    ensures Ranks(Extracted(outcomes, 3)) == [1, 3] && Warnings(outcomes, 3) == []
  {
    var d1, d3 := outcomes[0].developer, outcomes[2].developer;
    assert Extracted(outcomes, 1) == [d1];
    assert Extracted(outcomes, 2) == [d1];
    assert Extracted(outcomes, 3) == [d1, d3];
    assert Warnings(outcomes, 1) == [];
    assert Warnings(outcomes, 2) == [];
  }

  /**
    A row with neither a name nor a username between two good rows is dropped
    silently: the kept ranks are 1 and 3, not renumbered, and no warning is given.
   */
  lemma MiddleRowDropped(clock: Clock)
    ensures Ranks(Developers([NamedRow, EmptyRow, NamedRow], clock)) == [1, 3]
    ensures Warnings(Outcomes([NamedRow, EmptyRow, NamedRow], clock), 3) == []
  {
    var rows := [NamedRow, EmptyRow, NamedRow];
    OutcomeAt(rows, clock, 0);
    OutcomeAt(rows, clock, 1);
    OutcomeAt(rows, clock, 2);
    NamedRowAccepted(1, clock(0));
    NamedRowAccepted(3, clock(2));
    MiddleOfThreeAnonymous(Outcomes(rows, clock));
  }
}
