/** The list the page starts with, and what the queries answer on it. */
module SampleList {
  import opened Text
  import opened Cities
  import opened Nearest

  /** The seven starting cities, coordinates in hundredths of a degree. */
  function SampleCities(): (cities: seq<City>)
    ensures |cities| == 7
  {
    [ City("Nashville", "TN", 3617, -8678, Some(671374)),
      City("New York", "NY", 4071, -7400, Some(950443)),
      City("Atlanta", "GA", 3375, -8439, Some(540443)),
      City("Denver", "CO", 3974, -10498, Some(335343)),
      City("Seattle", "WA", 4761, -12233, Some(320567)),
      City("Los Angeles", "CA", 3405, -11824, Some(870432)),
      City("Memphis", "TN", 3515, -9005, Some(478930)) ]
  }

  /** Latitude 47.61: Seattle lies north of every other starting city. */
  lemma SampleNorthernmost()
    ensures CityByPosition(SampleCities(), "northernmost") == "Seattle"
  {
    var cities := SampleCities();
    assert IsLastExtreme(cities, Northernmost, 4);
    CityByPositionIs(cities, "northernmost", Northernmost, 4);
  }

  /** Latitude 33.75: Atlanta lies south of every other starting city. */
  lemma SampleSouthernmost()
    ensures CityByPosition(SampleCities(), "southernmost") == "Atlanta"
  {
    var cities := SampleCities();
    assert IsLastExtreme(cities, Southernmost, 2);
    CityByPositionIs(cities, "southernmost", Southernmost, 2);
  }

  /** Longitude -122.33: Seattle lies west of every other starting city. */
  lemma SampleWesternmost()
    ensures CityByPosition(SampleCities(), "westernmost") == "Seattle"
  {
    var cities := SampleCities();
    assert IsLastExtreme(cities, Westernmost, 4);
    CityByPositionIs(cities, "westernmost", Westernmost, 4);
  }

  /** Longitude -74.00: New York lies east of every other starting city. */
  lemma SampleEasternmost()
    ensures CityByPosition(SampleCities(), "easternmost") == "New York"
  {
    var cities := SampleCities();
    assert IsLastExtreme(cities, Easternmost, 1);
    CityByPositionIs(cities, "easternmost", Easternmost, 1);
  }

  /** The nearest starting city to latitude 35, longitude -90 is Memphis. */
  lemma SampleNearest()
    ensures NearestScan(Distances(SampleCities(), 3500, -9000)).index == 6
    ensures ScanAsWritten(Distances(SampleCities(), 3500, -9000)).index == 6
  {
    var ds := Distances(SampleCities(), 3500, -9000);
    assert ds == [117373, 2886041, 330346, 2468680, 12042410, 7984001, 250];
    ScanAsWrittenAgrees(ds);
    assert IsFirstNearest(ds, 6);
    FirstNearestUnique(ds, 0, NearestScan(ds).index, 6);
  }

  /** The distinct abbreviations of the starting cities: the second TN
      (Memphis) is dropped. */
  lemma SampleDistinctAbbreviations()
    ensures Dedup(Abbreviations(SampleCities())) == ["TN", "NY", "GA", "CO", "WA", "CA"]
  {
    var items := Abbreviations(SampleCities());
    assert items == ["TN", "NY", "GA", "CO", "WA", "CA"] + ["TN"];
    DedupNoRepeats(["TN", "NY", "GA", "CO", "WA", "CA"]);
    DedupAppend(["TN", "NY", "GA", "CO", "WA", "CA"], "TN");
  }

  /** The distinct abbreviations joined by spaces. */
  lemma SampleJoin()
    ensures Join(["TN", "NY", "GA", "CO", "WA", "CA"], ' ') == "TN NY GA CO WA CA"
  {
    SampleJoinTail();
    assert Join(["NY", "GA", "CO", "WA", "CA"], ' ') == "NY GA CO WA CA";
  }

  /** The last four distinct abbreviations joined by spaces. */
  lemma SampleJoinTail()
    ensures Join(["GA", "CO", "WA", "CA"], ' ') == "GA CO WA CA"
  {
    assert Join(["WA", "CA"], ' ') == "WA CA";
    assert Join(["CO", "WA", "CA"], ' ') == "CO WA CA";
  }

  /** The joined listing has no white space to trim. */
  lemma SampleTrim()
    ensures Trim("TN NY GA CO WA CA") == "TN NY GA CO WA CA"
  {
    var listing := "TN NY GA CO WA CA";
    assert listing[0] == 'T' && listing[|listing| - 1] == 'A';
    TrimUnchanged(listing);
  }

  /** The listing of the starting list: the distinct abbreviations, joined
      and trimmed. */
  lemma SampleListing()
    ensures AbbreviationListing(SampleCities()) == "TN NY GA CO WA CA"
  {
    SampleDistinctAbbreviations();
    SampleJoin();
    SampleTrim();
  }

  /** The answer of the abbreviation query on the starting list. */
  lemma SampleAbbreviations()
    ensures AbbreviationMessage(SampleCities()) == "Cities abbreviation is " + "TN NY GA CO WA CA"
  {
    var cities := SampleCities();
    assert |cities| != 0;
    SampleListing();
  }
}
