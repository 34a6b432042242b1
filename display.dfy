/**
  The console preview of the scraped records: at most the first ten, one
  table row each, with the text columns cut to fixed budgets, and a line
  counting the records left out. Styling and layout are left to the table
  library; what is modelled is the strings handed to it.
 */
module Display {
  import opened Options
  import opened Text
  import opened Scraper

  const PreviewLimit: nat := 10
  const UsernameBudget: nat := 18
  const NameBudget: nat := 23
  const RepoBudget: nat := 23
  const DescriptionBudget: nat := 28
  const Ellipsis: string := "..."

  function Min(a: nat, b: nat): nat {
    if a <= b then a else b
  }

  /**
    A preview cell: a string longer than its budget keeps its first `budget`
    characters followed by an ellipsis, so it is `budget + 3` long; any other
    string is shown as it is.
   */
  function Truncate(s: string, budget: nat): (r: string)
    ensures |r| == if |s| > budget then budget + 3 else |s|
    ensures |s| <= budget ==> r == s
    ensures |s| > budget ==> r[..budget] == s[..budget] && r[budget..] == Ellipsis
  {
    if |s| > budget then s[..budget] + Ellipsis else s
  }

  /**
    A string is shown unchanged exactly when it fits its budget, or when it is
    already a `budget`-character head followed by the ellipsis.
   */
  lemma TruncateUnchangedIff(s: string, budget: nat)
    ensures Truncate(s, budget) == s <==> |s| <= budget || (|s| == budget + 3 && s[budget..] == Ellipsis)
  {
  }

  /** Cutting a cell a second time changes nothing. */
  lemma TruncateIdempotent(s: string, budget: nat)
    ensures Truncate(Truncate(s, budget), budget) == Truncate(s, budget)
  {
  }

  /** The strings one record contributes to the preview table, in column order. */
  datatype PreviewRow = PreviewRow(rank: string, username: string, name: string, popularRepo: string, repoDescription: string)

  /** What is shown: a "no developers" message, or the table and, past ten records, how many more there are. */
  datatype Preview = NoDevelopers | Table(rows: seq<PreviewRow>, more: Option<nat>)

  /** The preview row of a record: its rank in decimal and its four text columns cut to their budgets. */
  function RowFor(d: Developer): (r: PreviewRow)
    ensures IsDecimal(r.rank) && ParseNat(r.rank) == d.rank
    ensures |r.username| <= UsernameBudget + 3 && |r.name| <= NameBudget + 3
    ensures |r.popularRepo| <= RepoBudget + 3 && |r.repoDescription| <= DescriptionBudget + 3
    ensures r.username == Truncate(d.username, UsernameBudget) && r.name == Truncate(d.name, NameBudget)
    ensures r.popularRepo == Truncate(d.popularRepo, RepoBudget)
    ensures r.repoDescription == Truncate(d.repoDescription, DescriptionBudget)
  {
    ParseNatToString(d.rank);
    PreviewRow(
      NatToString(d.rank),
      Truncate(d.username, UsernameBudget),
      Truncate(d.name, NameBudget),
      Truncate(d.popularRepo, RepoBudget),
      Truncate(d.repoDescription, DescriptionBudget))
  }

  /**
    Builds the preview: nothing but the "no developers" message for an empty
    list; otherwise one row for each of the first ten records, in order, and a
    count of the rest when there are more than ten.
   */
  method DisplayResults(developers: seq<Developer>) returns (preview: Preview)
    ensures developers == [] <==> preview.NoDevelopers?
    ensures preview.Table? ==> |preview.rows| == Min(|developers|, PreviewLimit)
    ensures preview.Table? ==> forall j :: 0 <= j < |preview.rows| ==> preview.rows[j] == RowFor(developers[j])
    ensures preview.Table? ==> (preview.more.Some? <==> |developers| > PreviewLimit)
    ensures preview.Table? && preview.more.Some? ==> preview.more.value == |developers| - PreviewLimit
  {
    if developers == [] {
      return NoDevelopers;
    }
    var shown := developers[..Min(|developers|, PreviewLimit)];
    var rows: seq<PreviewRow> := [];
    for j := 0 to |shown|
      invariant |rows| == j
      invariant forall k :: 0 <= k < j ==> rows[k] == RowFor(shown[k])
    {
      rows := rows + [RowFor(shown[j])];
    }
    var more := if |developers| > PreviewLimit then Some(|developers| - PreviewLimit) else None;
    preview := Table(rows, more);
  }
}
