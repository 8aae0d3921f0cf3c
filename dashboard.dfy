/**
 * The data side of the profile page: the rows it keeps from the history
 * response, how it cleans them, and the labels and counts of its
 * identifications chart.
 */
module Dashboard {
  import opened Wrappers
  import opened Text
  import opened Arrays
  import opened Http
  import Accounts

  /** A history row as the page reads it from the JSON: any column may be missing or null. */
  datatype ApiRow = ApiRow(id: nat, plantName: Option<string>, scientificName: Option<string>, identifiedAt: Option<string>)

  /** A row as the page keeps it. */
  datatype Entry = Entry(id: nat, plantName: string, scientificName: string, identifiedAt: string)

  const UnknownPlant := "Unknown Plant"
  const NoScientificName := "Scientific name not available"
  const NoDate := "Date not available"
  /** How many of the received rows the page keeps: the last six. */
  const Shown := 6

  /** The last `n` rows, in their order, or all of them when there are fewer. */
  function KeepLast(rows: seq<ApiRow>, n: nat): (r: seq<ApiRow>)
    ensures |r| == (if |rows| <= n then |rows| else n)
    ensures r == rows[|rows| - |r|..]
  {
    if |rows| <= n then rows else rows[|rows| - n..]
  }

  // A name column as the page shows it: every double asterisk removed,
  // then trimmed; a missing or empty value gives the fallback.
  function Clean(name: Option<string>, fallback: string): (r: string)
    ensures name.Some? && Trim(RemoveDoubleStars(name.value)) != "" ==> r == Trim(RemoveDoubleStars(name.value))
    ensures name.None? || Trim(RemoveDoubleStars(name.value)) == "" ==> r == fallback
    ensures r == fallback || (r != "" && NoDoubleStar(r) && Trim(r) == r)
  {
    match name
    case None => fallback
    case Some(s) =>
      var t := Trim(RemoveDoubleStars(s));
      TrimNoDoubleStar(RemoveDoubleStars(s));
      TrimIdempotent(RemoveDoubleStars(s));
      OrElse(t, fallback)
  }

  /** A fallback that cleaning leaves alone: not empty, no `**`, trimmed. */
  predicate CleanFallback(fallback: string) {
    fallback != "" && NoDoubleStar(fallback) && Trim(fallback) == fallback
  }

  /** Cleaning is idempotent, so cleaning a stored name again changes nothing. */
  lemma CleanIdempotent(name: Option<string>, fallback: string)
    requires CleanFallback(fallback)
    ensures Clean(Some(Clean(name, fallback)), fallback) == Clean(name, fallback)
  {
    var r := Clean(name, fallback);
    RemoveDoubleStarsNone(r);
  }

  lemma DefaultsAreClean()
    ensures CleanFallback(UnknownPlant) && CleanFallback(NoScientificName)
  {
    UnknownPlantIsClean();
    NoScientificNameIsClean();
  }

  lemma UnknownPlantIsClean()
    ensures CleanFallback(UnknownPlant)
  {
    LettersAreClean(UnknownPlant);
  }

  lemma NoScientificNameIsClean()
    ensures CleanFallback(NoScientificName)
  {
    LettersAreClean(NoScientificName);
  }

  /** Letters and inner spaces only: such a word is a fallback that cleaning leaves alone. */
  lemma LettersAreClean(s: string)
    requires s != "" && s[0] != ' ' && s[|s| - 1] != ' '
    requires forall i :: 0 <= i < |s| ==> s[i] == ' ' || 'a' <= s[i] <= 'z' || 'A' <= s[i] <= 'Z'
    ensures CleanFallback(s)
  {
    CleanWord(s);
  }

  lemma CleanWord(s: string)
    requires s != "" && '*' !in s && !IsSpace(s[0]) && !IsSpace(s[|s| - 1])
    ensures CleanFallback(s)
  {
    NoStarNoDoubleStar(s);
    TrimOfTrimmed(s);
  }

  /** The cleaning the page applies to each received row. */
  function ToEntry(row: ApiRow): Entry {
    Entry(
      row.id,
      Clean(row.plantName, UnknownPlant),
      Clean(row.scientificName, NoScientificName),
      OrElse(row.identifiedAt.GetOr(""), NoDate))
  }

  /** What `setPlantIdentifications` receives for an ok history response. */
  function Received(rows: seq<ApiRow>): (r: seq<Entry>)
    ensures |r| <= Shown && |r| == |KeepLast(rows, Shown)|
    ensures forall i :: 0 <= i < |r| ==> r[i] == ToEntry(rows[|rows| - |r| + i])
  {
    var kept := KeepLast(rows, Shown);
    seq(|kept|, i requires 0 <= i < |kept| => ToEntry(kept[i]))
  }

  /** A row keeps its id and gets a name with no `**`, trimmed, and never empty. */
  lemma EntryFields(row: ApiRow)
    ensures ToEntry(row).id == row.id
    ensures ToEntry(row).plantName != "" && NoDoubleStar(ToEntry(row).plantName)
    ensures ToEntry(row).scientificName != "" && NoDoubleStar(ToEntry(row).scientificName)
    ensures ToEntry(row).identifiedAt != ""
    ensures row.plantName.None? ==> ToEntry(row).plantName == UnknownPlant
    ensures row.identifiedAt.None? ==> ToEntry(row).identifiedAt == NoDate
  {
    DefaultsAreClean();
  }

  // ---- The chart ----

  /** The name the chart computes for an entry, cleaning the stored name once more. */
  function ChartName(e: Entry): string {
    Clean(Some(e.plantName), UnknownPlant)
  }

  /** On entries the page stored, the chart's re-cleaning gives back the stored name. */
  lemma ChartNameOfStored(row: ApiRow)
    ensures ChartName(ToEntry(row)) == ToEntry(row).plantName
  {
    DefaultsAreClean();
    CleanIdempotent(row.plantName, UnknownPlant);
  }

  predicate Distinct(s: seq<string>) {
    forall i, j :: 0 <= i < j < |s| ==> s[i] != s[j]
  }

  /** `Array.from(new Set(s))`: each value once, in the order of its first occurrence. */
  function Dedup(s: seq<string>): (r: seq<string>)
    ensures Distinct(r)
    ensures forall i :: 0 <= i < |s| ==> s[i] in r
    ensures forall i :: 0 <= i < |r| ==> r[i] in s
    decreases |s|
  {
    if s == [] then []
    else
      var d := Dedup(s[..|s| - 1]);
      assert forall i :: 0 <= i < |s| - 1 ==> s[i] == s[..|s| - 1][i];
      if s[|s| - 1] in d then d else d + [s[|s| - 1]]
  }

  /** Labels already emitted stay in front: the labels of a prefix are a prefix of the labels. */
  lemma {:induction false} DedupPrefix(s: seq<string>, k: nat)
    requires k <= |s|
    ensures Dedup(s[..k]) <= Dedup(s)
    decreases |s|
  {
    if k < |s| {
      assert s[..|s| - 1][..k] == s[..k];
      DedupPrefix(s[..|s| - 1], k);
    } else {
      assert s[..k] == s;
    }
  }

  function ChartNames(entries: seq<Entry>): (names: seq<string>)
    ensures |names| == |entries| && forall i :: 0 <= i < |entries| ==> names[i] == ChartName(entries[i])
  {
    seq(|entries|, i requires 0 <= i < |entries| => ChartName(entries[i]))
  }

  /** `chartData.labels`. */
  function ChartLabels(entries: seq<Entry>): seq<string> {
    Dedup(ChartNames(entries))
  }

  /** `chartData.datasets[0].data`: per label, how many entries carry it. */
  function ChartData(entries: seq<Entry>, labels: seq<string>): (data: seq<nat>)
    ensures |data| == |labels|
    ensures forall i :: 0 <= i < |labels| ==> data[i] == Count(entries, (e: Entry) => ChartName(e) == labels[i])
    decreases |labels|
  {
    if labels == [] then []
    else [Count(entries, (e: Entry) => ChartName(e) == labels[0])] + ChartData(entries, labels[1..])
  }

  function Sum(s: seq<nat>): nat
    decreases |s|
  {
    if s == [] then 0 else s[0] + Sum(s[1..])
  }

  /** Over distinct labels, the counts add up to the number of entries carrying any of the labels. */
  lemma {:induction false} SumOfCounts(entries: seq<Entry>, labels: seq<string>)
    requires Distinct(labels)
    ensures Sum(ChartData(entries, labels)) == Count(entries, (e: Entry) => ChartName(e) in labels)
    decreases |labels|
  {
    if labels == [] {
      CountSame(entries, (e: Entry) => ChartName(e) in labels, (e: Entry) => false);
      assert Filter(entries, (e: Entry) => false) == [] by {
        FilterNone(entries, (e: Entry) => false);
      }
    } else {
      var rest := labels[1..];
      assert Distinct(rest) by {
        forall i, j | 0 <= i < j < |rest| ensures rest[i] != rest[j] {
          assert rest[i] == labels[i + 1] && rest[j] == labels[j + 1];
        }
      }
      SumOfCounts(entries, rest);
      assert labels[0] !in rest by {
        forall i | 0 <= i < |rest| ensures rest[i] != labels[0] {
          assert rest[i] == labels[i + 1];
        }
      }
      CountEither(entries, (e: Entry) => ChartName(e) == labels[0], (e: Entry) => ChartName(e) in rest,
                  (e: Entry) => ChartName(e) in labels);
    }
  }

  lemma {:induction false} FilterNone<T>(s: seq<T>, p: T -> bool)
    requires forall i :: 0 <= i < |s| ==> !p(s[i])
    ensures Filter(s, p) == []
    decreases |s|
  {
    if |s| > 0 {
      FilterNone(s[1..], p);
    }
  }

  /**
   * The chart: one label per distinct name, every count at least 1, and
   * the counts adding up to the number of entries shown.
   */
  lemma ChartCounts(entries: seq<Entry>)
    ensures var labels := ChartLabels(entries);
            var data := ChartData(entries, labels);
            && |data| == |labels| && Distinct(labels)
            && (forall i :: 0 <= i < |entries| ==> ChartName(entries[i]) in labels)
            && (forall i :: 0 <= i < |data| ==> data[i] >= 1)
            && Sum(data) == |entries|
  {
    var names := ChartNames(entries);
    var labels := ChartLabels(entries);
    var data := ChartData(entries, labels);
    LabelsCover(entries);
    SumOfCounts(entries, labels);
    CountAll(entries, (e: Entry) => ChartName(e) in labels);
    forall i | 0 <= i < |data| ensures data[i] >= 1 {
      LabelCounted(entries, labels, i);
    }
  }

  lemma LabelsCover(entries: seq<Entry>)
    ensures forall i :: 0 <= i < |entries| ==> ChartName(entries[i]) in ChartLabels(entries)
  {
    var names := ChartNames(entries);
    assert forall i :: 0 <= i < |entries| ==> names[i] in ChartLabels(entries);
  }

  /** Every label is carried by some entry, so its count is at least 1. */
  lemma LabelCounted(entries: seq<Entry>, labels: seq<string>, i: nat)
    requires labels == ChartLabels(entries) && i < |labels|
    ensures ChartData(entries, labels)[i] >= 1
  {
    var names := ChartNames(entries);
    assert labels[i] in names;
    var k :| 0 <= k < |names| && names[k] == labels[i];
    var carries := (e: Entry) => ChartName(e) == labels[i];
    assert carries(entries[k]);
    CountPositive(entries, carries, k);
    assert ChartData(entries, labels)[i] == Count(entries, carries);
  }

  /** For the entries the page stores, the labels are the distinct stored names. */
  lemma LabelsOfReceived(rows: seq<ApiRow>)
    ensures var entries := Received(rows);
            ChartLabels(entries) == Dedup(seq(|entries|, i requires 0 <= i < |entries| => entries[i].plantName))
  {
    var entries := Received(rows);
    forall i | 0 <= i < |entries| ensures ChartName(entries[i]) == entries[i].plantName {
      ChartNameOfStored(rows[|rows| - |entries| + i]);
    }
    assert ChartNames(entries) == seq(|entries|, i requires 0 <= i < |entries| => entries[i].plantName);
  }

  // ---- Responses ----

  /** What a `fetch` gave: a response with its status and decoded body, or a thrown error. */
  datatype Fetched<+T> = Answered(status: nat, body: T) | Threw

  /** `fetchPlantIdentifications`: the new list; a response that is not ok, or a throw, leaves it as it was. */
  function AfterHistoryFetch(current: seq<Entry>, f: Fetched<seq<ApiRow>>): (r: seq<Entry>)
    ensures f.Threw? || !IsOk(f.status) ==> r == current
    ensures f.Answered? && IsOk(f.status) ==> r == Received(f.body)
  {
    match f
    case Threw => current
    case Answered(status, rows) => if IsOk(status) then Received(rows) else current
  }

  datatype ProfileStep = ShowProfile(profile: Accounts.UserProfile) | Navigate(path: string) | KeepProfile

  /** `fetchProfile`: an ok response shows the profile, any other response goes to the login page. */
  function AfterProfileFetch(f: Fetched<Accounts.UserProfile>): (r: ProfileStep)
    ensures f.Answered? && !IsOk(f.status) ==> r == Navigate("/login")
    ensures f.Answered? && IsOk(f.status) ==> r == ShowProfile(f.body)
    ensures f.Threw? ==> r == KeepProfile
  {
    match f
    case Threw => KeepProfile
    case Answered(status, p) => if IsOk(status) then ShowProfile(p) else Navigate("/login")
  }
}
