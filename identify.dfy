/**
 * POST /api/identify-plant: the guard on the uploaded image, the check on
 * the model's reply, and the line parser that turns the reply into a
 * six-field plant record.
 */
module IdentifyPlant {
  import opened Wrappers
  import opened Text
  import opened Arrays
  import opened Http

  datatype PlantInfo = PlantInfo(
    name: string,
    scientificName: string,
    family: string,
    plantType: string,
    careLevel: string,
    description: string)

  const Unknown := "Unknown"
  const NoDescription := "No description available"

  const NameKey := "name:"
  const ScientificNameKey := "scientific name:"
  const FamilyKey := "family:"
  const TypeKey := "type:"
  const CareLevelKey := "care level:"
  const DescriptionKey := "description:"

  /** A line that is not blank once trimmed. */
  predicate NonBlank(line: string) {
    Trim(line) != ""
  }

  /** The reply split at line breaks, keeping the lines that are not blank once trimmed, in order. */
  function Lines(content: string): (r: seq<string>)
    ensures r == Filter(Split(content, '\n'), NonBlank)
    ensures |r| <= |Split(content, '\n')|
    ensures forall i :: 0 <= i < |r| ==> Trim(r[i]) != "" && '\n' !in r[i]
    ensures forall l :: l in Split(content, '\n') && Trim(l) != "" ==> l in r
  {
    var pieces := Split(content, '\n');
    var r := Filter(pieces, NonBlank);
    assert forall i :: 0 <= i < |r| ==> '\n' !in r[i] by {
      forall i | 0 <= i < |r| ensures '\n' !in r[i] {
        var j :| 0 <= j < |pieces| && pieces[j] == r[i];
      }
    }
    r
  }

  /** The lower-cased line contains the key somewhere. */
  predicate HasKey(line: string, key: string) {
    Contains(ToLower(line), key)
  }

  /** The first line that carries the key. */
  function FindLine(lines: seq<string>, key: string): (r: Option<string>)
    ensures r.Some? ==> r.value in lines && HasKey(r.value, key)
    ensures r.None? <==> forall i :: 0 <= i < |lines| ==> !HasKey(lines[i], key)
    ensures r.Some? ==> exists i :: 0 <= i < |lines| && r.value == lines[i] && HasKey(lines[i], key)
                                    && forall j :: 0 <= j < i ==> !HasKey(lines[j], key)
  {
    match FindIndex(lines, (l: string) => HasKey(l, key))
    case None => None
    case Some(i) =>
      assert forall j :: 0 <= j < i ==> !HasKey(lines[j], key);
      Some(lines[i])
  }

  /** A short field: the trimmed text between the first and second colon of its line, or "Unknown". */
  function ShortValue(found: Option<string>): (r: string)
    ensures r != ""
  {
    match found
    case None => Unknown
    case Some(line) =>
      var parts := Split(line, ':');
      if |parts| < 2 then Unknown else OrElse(Trim(parts[1]), Unknown)
  }

  /** The description: the trimmed text after the first colon of its line, later colons kept, or the default. */
  function LongValue(found: Option<string>): (r: string)
    ensures r != ""
  {
    match found
    case None => NoDescription
    case Some(line) => OrElse(Trim(Join(Split(line, ':')[1..], ':')), NoDescription)
  }

  /** The `plantInfo` record built from the model's reply. */
  function Parse(content: string): (info: PlantInfo)
    ensures info.name != "" && info.scientificName != "" && info.family != ""
    ensures info.plantType != "" && info.careLevel != "" && info.description != ""
  {
    var lines := Lines(content);
    PlantInfo(
      ShortValue(FindLine(lines, NameKey)),
      ShortValue(FindLine(lines, ScientificNameKey)),
      ShortValue(FindLine(lines, FamilyKey)),
      ShortValue(FindLine(lines, TypeKey)),
      ShortValue(FindLine(lines, CareLevelKey)),
      LongValue(FindLine(lines, DescriptionKey)))
  }

  // ---- Field values ----

  /** The short fields keep the trimmed text between the first and the second colon; the rest is dropped. */
  lemma ShortValueBetweenColons(a: string, b: string, rest: string)
    requires ':' !in a && ':' !in b
    ensures ShortValue(Some(a + ":" + b + ":" + rest)) == OrElse(Trim(b), Unknown)
  {
    var tail := b + [':'] + rest;
    var line := a + ":" + b + ":" + rest;
    assert line == a + [':'] + tail;
    SplitAtFirst(a, tail, ':');
    SplitAtFirst(b, rest, ':');
    assert Split(line, ':')[1] == b;
  }

  /** A line with a single colon: the short field is the trimmed text after it. */
  lemma ShortValueSingleColon(a: string, b: string)
    requires ':' !in a && ':' !in b
    ensures ShortValue(Some(a + ":" + b)) == OrElse(Trim(b), Unknown)
  {
    assert a + ":" + b == a + [':'] + b;
    SplitAtFirst(a, b, ':');
    SplitNoSeparator(b, ':');
  }

  /** The description keeps everything after the first colon, later colons included. */
  lemma LongValueAfterFirstColon(a: string, b: string)
    requires ':' !in a
    ensures LongValue(Some(a + ":" + b)) == OrElse(Trim(b), NoDescription)
  {
    assert a + ":" + b == a + [':'] + b;
    SplitAtFirst(a, b, ':');
    assert Split(a + ":" + b, ':')[1..] == Split(b, ':');
    JoinSplit(b, ':');
  }

  /** A field whose key is on no line falls back to its default; the lookup of one key ignores the others. */
  lemma MissingKeyDefaults(content: string, key: string)
    requires forall l :: l in Lines(content) ==> !HasKey(l, key)
    ensures ShortValue(FindLine(Lines(content), key)) == Unknown
    ensures LongValue(FindLine(Lines(content), key)) == NoDescription
  {
    var lines := Lines(content);
    assert forall i :: 0 <= i < |lines| ==> !HasKey(lines[i], key) by {
      forall i | 0 <= i < |lines| ensures !HasKey(lines[i], key) {
        assert lines[i] in lines;
      }
    }
  }

  /** Any line carrying the scientific-name key also carries the name key. */
  lemma ScientificNameLineHasNameKey(line: string)
    requires HasKey(line, ScientificNameKey)
    ensures HasKey(line, NameKey)
  {
    assert OccursAt(ScientificNameKey, NameKey, 11);
    ContainsTransitive(ToLower(line), ScientificNameKey, NameKey);
  }

  // ---- Replies in `Label: value` form ----

  /** One `Label: value` line of a reply. */
  datatype Entry = Entry(heading: string, value: string)

  function Render(e: Entry): string {
    e.heading + ": " + e.value
  }

  predicate WellFormed(e: Entry) {
    ':' !in e.heading && ':' !in e.value && '\n' !in e.heading && '\n' !in e.value
  }

  /** The entry's lower-cased label, followed by a colon, ends with the key. */
  predicate LabelMatches(e: Entry, key: string) {
    EndsWith(ToLower(e.heading) + ":", key)
  }

  function EntryShortValue(found: Option<Entry>): string {
    match found
    case None => Unknown
    case Some(e) => OrElse(Trim(e.value), Unknown)
  }

  function EntryLongValue(found: Option<Entry>): string {
    match found
    case None => NoDescription
    case Some(e) => OrElse(Trim(e.value), NoDescription)
  }

  function FindEntry(es: seq<Entry>, key: string): Option<Entry> {
    match FindIndex(es, (e: Entry) => LabelMatches(e, key))
    case None => None
    case Some(i) => Some(es[i])
  }

  function RenderAll(es: seq<Entry>): (lines: seq<string>)
    ensures |lines| == |es|
    ensures forall i :: 0 <= i < |es| ==> lines[i] == Render(es[i])
  {
    seq(|es|, i requires 0 <= i < |es| => Render(es[i]))
  }

  /** A key is found on a rendered line exactly when the line's label ends with the key. */
  lemma HasKeyRendered(e: Entry, key: string)
    requires WellFormed(e)
    requires |key| > 0 && key[|key| - 1] == ':' && ':' !in key[..|key| - 1]
    ensures HasKey(Render(e), key) <==> LabelMatches(e, key)
  {
    var low := ToLower(Render(e));
    ToLowerConcat(e.heading + ":", " " + e.value);
    ToLowerConcat(e.heading, ":");
    assert Render(e) == (e.heading + ":") + (" " + e.value);
    assert ToLower(":") == ":";
    var p := |e.heading|;
    forall i | 0 <= i < |low| && i != p ensures low[i] != ':' {
      if i < p {
        assert Render(e)[i] == e.heading[i];
      } else {
        if i == p + 1 {
          assert Render(e)[i] == ' ';
        } else {
          assert Render(e)[i] == e.value[i - p - 2];
        }
      }
    }
    ContainsKeyAtSeparator(low, p, key, ':');
    assert low[..p + 1] == ToLower(e.heading) + ":";
  }

  /** The short value of a rendered line is its entry's trimmed value. */
  lemma ShortValueRendered(e: Entry)
    requires WellFormed(e)
    ensures ShortValue(Some(Render(e))) == EntryShortValue(Some(e))
  {
    assert Render(e) == e.heading + ":" + (" " + e.value);
    ShortValueSingleColon(e.heading, " " + e.value);
    TrimAfterSpaces(" ", e.value);
  }

  lemma LongValueRendered(e: Entry)
    requires WellFormed(e)
    ensures LongValue(Some(Render(e))) == EntryLongValue(Some(e))
  {
    assert Render(e) == e.heading + ":" + (" " + e.value);
    LongValueAfterFirstColon(e.heading, " " + e.value);
    TrimAfterSpaces(" ", e.value);
  }

  /** The keys in order: Name, Scientific Name, Family, Type, Care Level, Description. */
  function Keys(): seq<string> {
    [NameKey, ScientificNameKey, FamilyKey, TypeKey, CareLevelKey, DescriptionKey]
  }

  lemma KeysEndInColon(key: string)
    requires key in Keys()
    ensures |key| > 0 && key[|key| - 1] == ':' && ':' !in key[..|key| - 1]
  {
  }

  /** For a key, the first rendered line carrying it is the rendering of the first entry whose label matches. */
  lemma FindLineRendered(es: seq<Entry>, key: string)
    requires forall i :: 0 <= i < |es| ==> WellFormed(es[i])
    requires key in Keys()
    ensures FindLine(RenderAll(es), key) == (match FindEntry(es, key) case None => None case Some(e) => Some(Render(e)))
  {
    var lines := RenderAll(es);
    KeysEndInColon(key);
    forall i | 0 <= i < |es| ensures HasKey(lines[i], key) <==> LabelMatches(es[i], key) {
      HasKeyRendered(es[i], key);
    }
    FindIndexCorresponds(lines, (l: string) => HasKey(l, key), es, (e: Entry) => LabelMatches(e, key));
  }

  /**
   * A reply made of `Label: value` lines: each field comes from the first
   * line whose lower-cased label ends with that field's key (so a
   * "Scientific Name" line also answers "name").
   */
  lemma {:induction false} ParseRendered(es: seq<Entry>)
    requires |es| >= 1
    requires forall i :: 0 <= i < |es| ==> WellFormed(es[i])
    ensures Parse(Join(RenderAll(es), '\n')) == PlantInfo(
      EntryShortValue(FindEntry(es, NameKey)),
      EntryShortValue(FindEntry(es, ScientificNameKey)),
      EntryShortValue(FindEntry(es, FamilyKey)),
      EntryShortValue(FindEntry(es, TypeKey)),
      EntryShortValue(FindEntry(es, CareLevelKey)),
      EntryLongValue(FindEntry(es, DescriptionKey)))
  {
    var lines := RenderAll(es);
    forall i | 0 <= i < |lines| ensures '\n' !in lines[i] && Trim(lines[i]) != "" {
      assert Render(es[i])[|es[i].heading|] == ':';
      assert !AllSpace(lines[i]);
    }
    SplitJoin(lines, '\n');
    FilterAll(lines, NonBlank);
    assert Lines(Join(lines, '\n')) == lines;
    forall key | key in Keys()
      ensures ShortValue(FindLine(lines, key)) == EntryShortValue(FindEntry(es, key))
      ensures LongValue(FindLine(lines, key)) == EntryLongValue(FindEntry(es, key))
    {
      FindLineRendered(es, key);
      match FindEntry(es, key)
      case None =>
      case Some(e) =>
        ShortValueRendered(e);
        LongValueRendered(e);
    }
  }

  /** `value` puts no colon and no line break into its line. */
  predicate PlainValue(value: string) {
    ':' !in value && '\n' !in value
  }

  /** A reply with one labelled line per field, in the order the prompt lists the fields: Name, Scientific Name, Family, Type, Care Level, Description. */
  function CanonicalReply(name: string, scientific: string, family: string, kind: string, care: string, description: string): string {
    Join(["Name: " + name, "Scientific Name: " + scientific, "Family: " + family,
          "Type: " + kind, "Care Level: " + care, "Description: " + description], '\n')
  }

  /** An entry that does not match is passed over. */
  lemma FindEntrySkip(es: seq<Entry>, key: string)
    requires |es| > 0 && !LabelMatches(es[0], key)
    ensures FindEntry(es, key) == FindEntry(es[1..], key)
  {
  }

  /** A matching entry at the front is the one found. */
  lemma FindEntryHere(es: seq<Entry>, key: string)
    requires |es| > 0 && LabelMatches(es[0], key)
    ensures FindEntry(es, key) == Some(es[0])
  {
  }

  /** The canonical headings, lower-cased, each followed by its colon. */
  lemma LoweredHeadings()
    ensures ToLower("Name") + ":" == "name:"
    ensures ToLower("Scientific Name") + ":" == "scientific name:"
    ensures ToLower("Family") + ":" == "family:"
    ensures ToLower("Type") + ":" == "type:"
    ensures ToLower("Care Level") + ":" == "care level:"
    ensures ToLower("Description") + ":" == "description:"
  {
    assert ToLower("Name") == "name";
    assert ToLower("Scientific Name") == "scientific name";
    assert ToLower("Family") == "family";
    assert ToLower("Type") == "type";
    assert ToLower("Care Level") == "care level";
    assert ToLower("Description") == "description";
  }

  /** A string does not end with `k` when they differ at some position of the window. */
  lemma DiffersAt(s: string, k: string, i: nat)
    requires |k| <= |s| && i < |k| && s[|s| - |k| + i] != k[i]
    ensures !EndsWith(s, k)
  {
    assert s[|s| - |k|..][i] == s[|s| - |k| + i];
  }

  /**
   * Which keys each lower-cased heading ends with: every heading matches
   * its own key, "scientific name:" matches "name:" as well, and no
   * heading matches the key of a field listed after it.
   */
  lemma HeadingKeys()
    ensures EndsWith("name:", NameKey) && EndsWith("scientific name:", NameKey)
    ensures EndsWith("scientific name:", ScientificNameKey) && EndsWith("family:", FamilyKey)
    ensures EndsWith("type:", TypeKey) && EndsWith("care level:", CareLevelKey)
    ensures EndsWith("description:", DescriptionKey)
    ensures !EndsWith("name:", ScientificNameKey)
    ensures !EndsWith("name:", FamilyKey) && !EndsWith("scientific name:", FamilyKey)
    ensures !EndsWith("name:", TypeKey) && !EndsWith("scientific name:", TypeKey) && !EndsWith("family:", TypeKey)
    ensures !EndsWith("name:", CareLevelKey) && !EndsWith("scientific name:", CareLevelKey)
    ensures !EndsWith("family:", CareLevelKey) && !EndsWith("type:", CareLevelKey)
    ensures !EndsWith("name:", DescriptionKey) && !EndsWith("scientific name:", DescriptionKey)
    ensures !EndsWith("family:", DescriptionKey) && !EndsWith("type:", DescriptionKey)
    ensures !EndsWith("care level:", DescriptionKey)
    ensures !EndsWith("care level:", FamilyKey) && !EndsWith("description:", FamilyKey) && !EndsWith("type:", FamilyKey)
  {
    DiffersAt("scientific name:", FamilyKey, 0);
    DiffersAt("name:", TypeKey, 0);
    DiffersAt("scientific name:", TypeKey, 0);
    DiffersAt("family:", TypeKey, 0);
    DiffersAt("description:", FamilyKey, 0);
  }

  lemma JoinCons(p: string, rest: seq<string>, c: char)
    requires |rest| >= 1
    ensures Join([p] + rest, c) == p + [c] + Join(rest, c)
  {
    assert ([p] + rest)[1..] == rest;
  }

  /** The entries of the canonical reply, in its order. */
  function CanonicalEntries(name: string, scientific: string, family: string, kind: string, care: string, description: string): seq<Entry> {
    [Entry("Name", name), Entry("Scientific Name", scientific), Entry("Family", family),
     Entry("Type", kind), Entry("Care Level", care), Entry("Description", description)]
  }

  /** In the canonical reply each field is its own line's trimmed value, or the default when that is empty. */
  lemma CanonicalReplyParses(name: string, scientific: string, family: string, kind: string, care: string, description: string)
    requires PlainValue(name) && PlainValue(scientific) && PlainValue(family)
    requires PlainValue(kind) && PlainValue(care) && PlainValue(description)
    ensures Parse(CanonicalReply(name, scientific, family, kind, care, description)) == PlantInfo(
      OrElse(Trim(name), Unknown), OrElse(Trim(scientific), Unknown), OrElse(Trim(family), Unknown),
      OrElse(Trim(kind), Unknown), OrElse(Trim(care), Unknown), OrElse(Trim(description), NoDescription))
  {
    var es := CanonicalEntries(name, scientific, family, kind, care, description);
    CanonicalRendered(name, scientific, family, kind, care, description);
    CanonicalWellFormed(name, scientific, family, kind, care, description);
    ParseRendered(es);
    CanonicalFinds(es);
  }

  /** The canonical reply is the rendering of its entries. */
  lemma CanonicalRendered(name: string, scientific: string, family: string, kind: string, care: string, description: string)
    ensures CanonicalReply(name, scientific, family, kind, care, description)
         == Join(RenderAll(CanonicalEntries(name, scientific, family, kind, care, description)), '\n')
  {
    var es := CanonicalEntries(name, scientific, family, kind, care, description);
    assert "Name" + ": " == "Name: " && "Scientific Name" + ": " == "Scientific Name: " && "Family" + ": " == "Family: ";
    assert "Type" + ": " == "Type: " && "Care Level" + ": " == "Care Level: " && "Description" + ": " == "Description: ";
    assert RenderAll(es) == ["Name: " + name, "Scientific Name: " + scientific, "Family: " + family,
          "Type: " + kind, "Care Level: " + care, "Description: " + description];
  }

  lemma CanonicalWellFormed(name: string, scientific: string, family: string, kind: string, care: string, description: string)
    requires PlainValue(name) && PlainValue(scientific) && PlainValue(family)
    requires PlainValue(kind) && PlainValue(care) && PlainValue(description)
    ensures forall i :: 0 <= i < 6 ==> WellFormed(CanonicalEntries(name, scientific, family, kind, care, description)[i])
  {
    var es := CanonicalEntries(name, scientific, family, kind, care, description);
    HeadingPlain("Name"); HeadingPlain("Scientific Name"); HeadingPlain("Family");
    HeadingPlain("Type"); HeadingPlain("Care Level"); HeadingPlain("Description");
    assert WellFormed(es[0]) && WellFormed(es[1]) && WellFormed(es[2]);
    assert WellFormed(es[3]) && WellFormed(es[4]) && WellFormed(es[5]);
  }

  /** A heading made of letters and spaces holds no colon and no line break. */
  lemma HeadingPlain(h: string)
    requires forall i :: 0 <= i < |h| ==> h[i] == ' ' || 'a' <= h[i] <= 'z' || 'A' <= h[i] <= 'Z'
    ensures ':' !in h && '\n' !in h
  {
  }

  /** The headings of the canonical reply, in order. */
  predicate CanonicalHeadings(es: seq<Entry>) {
    && |es| == 6
    && es[0].heading == "Name" && es[1].heading == "Scientific Name" && es[2].heading == "Family"
    && es[3].heading == "Type" && es[4].heading == "Care Level" && es[5].heading == "Description"
  }

  /** Which canonical entries match each key. */
  lemma CanonicalMatches(es: seq<Entry>)
    requires CanonicalHeadings(es)
    ensures LabelMatches(es[0], NameKey) && LabelMatches(es[1], ScientificNameKey) && LabelMatches(es[2], FamilyKey)
    ensures LabelMatches(es[3], TypeKey) && LabelMatches(es[4], CareLevelKey) && LabelMatches(es[5], DescriptionKey)
    ensures !LabelMatches(es[0], ScientificNameKey)
    ensures !LabelMatches(es[0], FamilyKey) && !LabelMatches(es[1], FamilyKey)
    ensures !LabelMatches(es[0], TypeKey) && !LabelMatches(es[1], TypeKey) && !LabelMatches(es[2], TypeKey)
    ensures !LabelMatches(es[0], CareLevelKey) && !LabelMatches(es[1], CareLevelKey)
    ensures !LabelMatches(es[2], CareLevelKey) && !LabelMatches(es[3], CareLevelKey)
    ensures !LabelMatches(es[0], DescriptionKey) && !LabelMatches(es[1], DescriptionKey)
    ensures !LabelMatches(es[2], DescriptionKey) && !LabelMatches(es[3], DescriptionKey) && !LabelMatches(es[4], DescriptionKey)
  {
    LoweredHeadings();
    HeadingKeys();
  }

  /** Each key of the canonical reply is found on its own line. */
  lemma CanonicalFinds(es: seq<Entry>)
    requires CanonicalHeadings(es)
    ensures FindEntry(es, NameKey) == Some(es[0]) && FindEntry(es, ScientificNameKey) == Some(es[1])
    ensures FindEntry(es, FamilyKey) == Some(es[2]) && FindEntry(es, TypeKey) == Some(es[3])
    ensures FindEntry(es, CareLevelKey) == Some(es[4]) && FindEntry(es, DescriptionKey) == Some(es[5])
  {
    CanonicalMatches(es);
    FindEntryHere(es, NameKey);
    FindEntrySkip(es, ScientificNameKey);
    FindEntryHere(es[1..], ScientificNameKey);
    FindEntrySkip(es, FamilyKey);
    FindEntrySkip(es[1..], FamilyKey);
    FindEntryHere(es[2..], FamilyKey);
    FindEntrySkip(es, TypeKey);
    FindEntrySkip(es[1..], TypeKey);
    FindEntrySkip(es[2..], TypeKey);
    FindEntryHere(es[3..], TypeKey);
    FindEntrySkip(es, CareLevelKey);
    FindEntrySkip(es[1..], CareLevelKey);
    FindEntrySkip(es[2..], CareLevelKey);
    FindEntrySkip(es[3..], CareLevelKey);
    FindEntryHere(es[4..], CareLevelKey);
    FindEntrySkip(es, DescriptionKey);
    FindEntrySkip(es[1..], DescriptionKey);
    FindEntrySkip(es[2..], DescriptionKey);
    FindEntrySkip(es[3..], DescriptionKey);
    FindEntrySkip(es[4..], DescriptionKey);
    FindEntryHere(es[5..], DescriptionKey);
  }

  function MissingFamilyReply(name: string, scientific: string, kind: string, care: string, description: string): string {
    Join(["Name: " + name, "Scientific Name: " + scientific, "Type: " + kind,
          "Care Level: " + care, "Description: " + description], '\n')
  }

  function MissingFamilyEntries(name: string, scientific: string, kind: string, care: string, description: string): seq<Entry> {
    [Entry("Name", name), Entry("Scientific Name", scientific),
     Entry("Type", kind), Entry("Care Level", care), Entry("Description", description)]
  }

  /** Without a Family line the family is "Unknown" and every other field still comes from its own line. */
  lemma MissingFamilyLine(name: string, scientific: string, kind: string, care: string, description: string)
    requires PlainValue(name) && PlainValue(scientific)
    requires PlainValue(kind) && PlainValue(care) && PlainValue(description)
    ensures Parse(MissingFamilyReply(name, scientific, kind, care, description)) == PlantInfo(
      OrElse(Trim(name), Unknown), OrElse(Trim(scientific), Unknown), Unknown,
      OrElse(Trim(kind), Unknown), OrElse(Trim(care), Unknown), OrElse(Trim(description), NoDescription))
  {
    var es := MissingFamilyEntries(name, scientific, kind, care, description);
    MissingFamilyRendered(name, scientific, kind, care, description);
    MissingFamilyWellFormed(name, scientific, kind, care, description);
    ParseRendered(es);
    MissingFamilyFinds(es);
    assert EntryShortValue(FindEntry(es, FamilyKey)) == Unknown;
  }

  /** The reply without a Family line is the rendering of its entries. */
  lemma MissingFamilyRendered(name: string, scientific: string, kind: string, care: string, description: string)
    ensures MissingFamilyReply(name, scientific, kind, care, description)
         == Join(RenderAll(MissingFamilyEntries(name, scientific, kind, care, description)), '\n')
  {
    var es := MissingFamilyEntries(name, scientific, kind, care, description);
    assert "Name" + ": " == "Name: " && "Scientific Name" + ": " == "Scientific Name: ";
    assert "Type" + ": " == "Type: " && "Care Level" + ": " == "Care Level: " && "Description" + ": " == "Description: ";
    assert RenderAll(es) == ["Name: " + name, "Scientific Name: " + scientific, "Type: " + kind,
                             "Care Level: " + care, "Description: " + description];
  }

  lemma MissingFamilyWellFormed(name: string, scientific: string, kind: string, care: string, description: string)
    requires PlainValue(name) && PlainValue(scientific)
    requires PlainValue(kind) && PlainValue(care) && PlainValue(description)
    ensures forall i :: 0 <= i < 5 ==> WellFormed(MissingFamilyEntries(name, scientific, kind, care, description)[i])
  {
    var es := MissingFamilyEntries(name, scientific, kind, care, description);
    HeadingPlain("Name"); HeadingPlain("Scientific Name");
    HeadingPlain("Type"); HeadingPlain("Care Level"); HeadingPlain("Description");
    assert WellFormed(es[0]) && WellFormed(es[1]) && WellFormed(es[2]);
    assert WellFormed(es[3]) && WellFormed(es[4]);
  }

  lemma MissingFamilyFinds(es: seq<Entry>)
    requires |es| == 5
    requires es[0].heading == "Name" && es[1].heading == "Scientific Name" && es[2].heading == "Type"
    requires es[3].heading == "Care Level" && es[4].heading == "Description"
    ensures FindEntry(es, NameKey) == Some(es[0]) && FindEntry(es, ScientificNameKey) == Some(es[1])
    ensures FindEntry(es, FamilyKey) == None && FindEntry(es, TypeKey) == Some(es[2])
    ensures FindEntry(es, CareLevelKey) == Some(es[3]) && FindEntry(es, DescriptionKey) == Some(es[4])
  {
    LoweredHeadings();
    HeadingKeys();
    FindEntryHere(es, NameKey);
    FindEntrySkip(es, ScientificNameKey);
    FindEntryHere(es[1..], ScientificNameKey);
    FindEntrySkip(es, FamilyKey);
    FindEntrySkip(es[1..], FamilyKey);
    FindEntrySkip(es[2..], FamilyKey);
    FindEntrySkip(es[3..], FamilyKey);
    FindEntrySkip(es[4..], FamilyKey);
    assert es[5..] == [];
    FindEntrySkip(es, TypeKey);
    FindEntrySkip(es[1..], TypeKey);
    FindEntryHere(es[2..], TypeKey);
    FindEntrySkip(es, CareLevelKey);
    FindEntrySkip(es[1..], CareLevelKey);
    FindEntrySkip(es[2..], CareLevelKey);
    FindEntryHere(es[3..], CareLevelKey);
    FindEntrySkip(es, DescriptionKey);
    FindEntrySkip(es[1..], DescriptionKey);
    FindEntrySkip(es[2..], DescriptionKey);
    FindEntrySkip(es[3..], DescriptionKey);
    FindEntryHere(es[4..], DescriptionKey);
  }

  /** A Scientific Name line placed before the Name line supplies the name too. */
  lemma ScientificNameFirst(scientific: string, name: string)
    requires PlainValue(scientific) && PlainValue(name)
    ensures Parse(Join(["Scientific Name: " + scientific, "Name: " + name], '\n')).name == OrElse(Trim(scientific), Unknown)
    ensures Parse(Join(["Scientific Name: " + scientific, "Name: " + name], '\n')).scientificName == OrElse(Trim(scientific), Unknown)
  {
    var es := [Entry("Scientific Name", scientific), Entry("Name", name)];
    SwappedRendered(scientific, name);
    HeadingPlain("Name"); HeadingPlain("Scientific Name");
    assert WellFormed(es[0]) && WellFormed(es[1]);
    ParseRendered(es);
    LoweredHeadings();
    HeadingKeys();
    FindEntryHere(es, NameKey);
    FindEntryHere(es, ScientificNameKey);
  }

  lemma SwappedRendered(scientific: string, name: string)
    ensures RenderAll([Entry("Scientific Name", scientific), Entry("Name", name)]) == ["Scientific Name: " + scientific, "Name: " + name]
  {
    assert "Name" + ": " == "Name: " && "Scientific Name" + ": " == "Scientific Name: ";
  }

  /** A value the reply can carry unchanged: no colon, no line break, not empty, no surrounding whitespace. */
  predicate Presentable(v: string) {
    PlainValue(v) && |v| > 0 && !IsSpace(v[0]) && !IsSpace(v[|v| - 1])
  }

  lemma PresentableParses(v: string)
    requires Presentable(v)
    ensures OrElse(Trim(v), Unknown) == v && OrElse(Trim(v), NoDescription) == v
  {
    TrimOfTrimmed(v);
  }

  /** Round trip: writing a record as the canonical reply and parsing it gives the record back. */
  lemma CanonicalRoundTrip(info: PlantInfo)
    requires Presentable(info.name) && Presentable(info.scientificName) && Presentable(info.family)
    requires Presentable(info.plantType) && Presentable(info.careLevel) && Presentable(info.description)
    ensures Parse(CanonicalReply(info.name, info.scientificName, info.family, info.plantType, info.careLevel, info.description)) == info
  {
    PresentableParses(info.name);
    PresentableParses(info.scientificName);
    PresentableParses(info.family);
    PresentableParses(info.plantType);
    PresentableParses(info.careLevel);
    PresentableParses(info.description);
    CanonicalReplyParses(info.name, info.scientificName, info.family, info.plantType, info.careLevel, info.description);
  }

  // ---- The handler ----

  /** What the content of the first choice of the completion turned out to be. */
  datatype Reply = TextReply(content: string) | NonTextReply | CallFailed

  /** The multipart form as read from the request. */
  datatype Form = Form(hasImage: bool) | UnreadableForm

  datatype Body = Info(info: PlantInfo) | Error(error: string)

  /** `POST`: `reply` stands for whatever the vision model answers for the uploaded image. */
  function Identify(form: Form, reply: Reply): (r: Response<Body>)
    ensures form == Form(false) ==> r == Response(400, Error("No image provided"))
    ensures form == Form(true) && reply.TextReply? ==> r == Response(200, Info(Parse(reply.content)))
    ensures (form.UnreadableForm? || (form.hasImage && !reply.TextReply?)) ==> r == Response(500, Error("Failed to identify plant"))
  {
    match form
    case UnreadableForm => Response(500, Error("Failed to identify plant"))
    case Form(hasImage) =>
      if !hasImage then Response(400, Error("No image provided"))
      else
        match reply
        case TextReply(content) => Response(200, Info(Parse(content)))
        case _ => Response(500, Error("Failed to identify plant"))
  }
}
