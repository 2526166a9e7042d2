/**
  The center directory: a fixed table from center codes to area labels and a
  fixed table from numeric ids to center codes. Both are built once and never
  change, so they are constant maps here and every getter and lookup is a
  function of them.
 */
module CenterMap {
  import opened Wrappers

  /** Errors raised by the two lookups; each carries the set of valid keys its message lists. */
  datatype DirectoryError =
    | UnknownCenter(center: string, validCenters: set<string>)
    | UnknownArea(area: string, validAreas: set<string>)

  /** center code -> area label (22 entries). */
  const CenterArea: map<string, string> := map[
    "PP" := "JKT 1",
    "SDC" := "JKT 1",
    "KG" := "JKT 1",
    "NEO" := "JKT 1",
    "GC" := "JKT 2",
    "LW" := "JKT 2",
    "BSD" := "JKT 2",
    "TBS" := "JKT 2",
    "CP" := "JKT 2",
    "KK" := "JKT 3",
    "CBB" := "JKT 3",
    "SMB" := "JKT 3",
    "DG" := "BDG",
    "PKW" := "SBY",
    "CIK" := "CIK",
    "HO" := "HO",
    "Street Talk" := "Street Talk",
    "Corporate" := "Corporate",
    "Online Center" := "Online Center",
    "Curioo" := "Curioo",
    "RST" := "RST",
    "NST" := "NST"
  ]

  /** numeric id -> center code (15 entries). */
  const CenterId: map<string, string> := map[
    "ID000" := "Corporate",
    "ID001" := "PP",
    "ID002" := "SDC",
    "ID003" := "GC",
    "ID005" := "KK",
    "ID007" := "DG",
    "ID008" := "PKW",
    "ID009" := "CBB",
    "ID010" := "BSD",
    "ID011" := "SMB",
    "ID013" := "TBS",
    "ID100" := "Curioo",
    "ID666" := "Online Center",
    "ID777" := "RST",
    "ID888" := "NST"
  ]

  /** The 22 center codes, in table order. */
  const CenterCodes: seq<string> := [
    "PP", "SDC", "KG", "NEO", "GC", "LW", "BSD", "TBS", "CP", "KK", "CBB",
    "SMB", "DG", "PKW", "CIK", "HO", "Street Talk", "Corporate",
    "Online Center", "Curioo", "RST", "NST"
  ]

  /** The 15 numeric ids, in table order. */
  const Ids: seq<string> := [
    "ID000", "ID001", "ID002", "ID003", "ID005", "ID007", "ID008", "ID009",
    "ID010", "ID011", "ID013", "ID100", "ID666", "ID777", "ID888"
  ]

  /** The 13 distinct area labels, in the order they first occur in the table. */
  const AreaLabels: seq<string> := [
    "JKT 1", "JKT 2", "JKT 3", "BDG", "SBY", "CIK", "HO",
    "Street Talk", "Corporate", "Online Center", "Curioo", "RST", "NST"
  ]

  /** All known center codes. */
  function Centers(): (r: set<string>)
    ensures forall c :: c in r <==> c in CenterArea
    ensures |r| == 22
  {
    TableFacts();
    CenterArea.Keys
  }

  /** All distinct area labels. */
  function Areas(): (r: set<string>)
    ensures forall a :: a in r <==> exists c :: c in CenterArea && CenterArea[c] == a
    ensures r == set a | a in AreaLabels
    ensures |r| == 13
  {
    TableFacts();
    CenterArea.Values
  }

  /** The id table, read-only. */
  function CenterIdMap(): (r: map<string, string>)
    ensures |r| == 15
    ensures forall id :: id in r ==> r[id] in Centers()
  {
    TableFacts();
    CenterId
  }

  /** The center table, read-only. */
  function CenterAreaMap(): (r: map<string, string>)
    ensures |r| == 22
    ensures forall c :: c in r ==> r[c] in Areas()
  {
    TableFacts();
    CenterArea
  }

  /** The area of a known center; an UnknownCenter error otherwise. */
  function LookupArea(center: string): (r: Result<string, DirectoryError>)
    ensures r.Success? <==> center in CenterArea
    ensures r.Success? ==> r.value in Areas() && r.value == CenterArea[center]
    ensures r.Failure? ==> r.error == UnknownCenter(center, Centers())
  {
    if center !in CenterArea.Keys then
      Failure(UnknownCenter(center, CenterArea.Keys))
    else
      Success(CenterArea[center])
  }

  /** Every center of a known area; an UnknownArea error otherwise. */
  function LookupCenters(area: string): (r: Result<set<string>, DirectoryError>)
    ensures r.Success? <==> area in Areas()
    ensures r.Success? ==> r.value != {}
    ensures r.Success? ==> forall c :: c in r.value <==> c in CenterArea && CenterArea[c] == area
    ensures r.Failure? ==> r.error == UnknownArea(area, Areas())
  {
    if area !in CenterArea.Values then
      Failure(UnknownArea(area, CenterArea.Values))
    else
      var r := set c | c in CenterArea && CenterArea[c] == area;
      assert exists c :: c in CenterArea && CenterArea[c] == area;
      var c :| c in CenterArea && CenterArea[c] == area;
      assert c in r;
      Success(r)
  }

  /** Round trip: a known center is among the centers of its own area. */
  lemma LookupRoundTrip(center: string)
    requires center in Centers()
    ensures LookupArea(center).Success?
    ensures LookupCenters(LookupArea(center).value).Success?
    ensures center in LookupCenters(LookupArea(center).value).value
  {
  }

  /** The centers of the known areas partition the set of known centers. */
  lemma AreasPartitionCenters()
    ensures forall a, b :: a in Areas() && b in Areas() && a != b ==>
      LookupCenters(a).value !! LookupCenters(b).value
    ensures forall c :: c in Centers() <==> exists a :: a in Areas() && c in LookupCenters(a).value
  {
    forall c | c in Centers()
      ensures exists a :: a in Areas() && c in LookupCenters(a).value
    {
      LookupRoundTrip(c);
    }
  }

  /** Every center code of the id table is a known center, and the id table has 15 distinct ids. */
  lemma CenterIdsAreKnown()
    ensures CenterId.Values <= Centers()
    ensures |CenterId.Keys| == 15
  {
    TableFacts();
  }

  /** Key and value sets of the two tables, and their sizes. */
  lemma TableFacts()
    ensures CenterArea.Keys == set c | c in CenterCodes
    ensures CenterArea.Values == set a | a in AreaLabels
    ensures CenterId.Keys == set i | i in Ids
    ensures CenterId.Values <= CenterArea.Keys
    ensures |CenterArea.Keys| == |CenterArea| == 22
    ensures |CenterId.Keys| == |CenterId| == 15
    ensures |CenterArea.Values| == 13
  {
    CenterKeys();
    IdKeys();
    IdValues();
    AreaValues();
    CodesDistinct();
    IdsDistinct();
    LabelsDistinct();
    DistinctCardinality(CenterCodes);
    DistinctCardinality(Ids);
    DistinctCardinality(AreaLabels);
  }

  lemma CenterKeys()
    ensures CenterArea.Keys == set c | c in CenterCodes
  {
  }

  lemma IdKeys()
    ensures CenterId.Keys == set i | i in Ids
  {
  }

  lemma IdValues()
    ensures CenterId.Values <= CenterArea.Keys
  {
  }

  lemma AreaValues()
    ensures CenterArea.Values == set a | a in AreaLabels
  {
    assert CenterArea["PP"] == "JKT 1";
    assert CenterArea["GC"] == "JKT 2";
    assert CenterArea["KK"] == "JKT 3";
    assert CenterArea["DG"] == "BDG";
    assert CenterArea["PKW"] == "SBY";
    assert CenterArea["CIK"] == "CIK";
    assert CenterArea["HO"] == "HO";
    assert CenterArea["Street Talk"] == "Street Talk";
    assert CenterArea["Corporate"] == "Corporate";
    assert CenterArea["Online Center"] == "Online Center";
    assert CenterArea["Curioo"] == "Curioo";
    assert CenterArea["RST"] == "RST";
    assert CenterArea["NST"] == "NST";
  }

  lemma CodesDistinct()
    ensures forall i, j :: 0 <= i < j < |CenterCodes| ==> CenterCodes[i] != CenterCodes[j]
  {
  }

  lemma IdsDistinct()
    ensures forall i, j :: 0 <= i < j < |Ids| ==> Ids[i] != Ids[j]
  {
  }

  lemma LabelsDistinct()
    ensures forall i, j :: 0 <= i < j < |AreaLabels| ==> AreaLabels[i] != AreaLabels[j]
  {
  }

  /** A sequence without repeats has as many distinct elements as it has entries. */
  lemma {:induction false} DistinctCardinality(s: seq<string>)
    requires forall i, j :: 0 <= i < j < |s| ==> s[i] != s[j]
    ensures |set x | x in s| == |s|
  {
    if s != [] {
      var init := s[..|s| - 1];
      DistinctCardinality(init);
      assert (set x | x in s) == (set x | x in init) + {s[|s| - 1]};
      assert s[|s| - 1] !in init;
    }
  }
}
