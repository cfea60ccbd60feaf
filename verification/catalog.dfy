/** The city map object: it owns the city list, which only ever grows by
    appending, and answers the queries over it. */
module Catalog {
  import opened Text
  import opened Cities
  import opened Nearest

  class CityMap {
    /** The cities in insertion order. */
    var cityList: seq<City>

    /** Builds the list from a stored snapshot when there is one, otherwise
        from the delimited text. */
    constructor (data: string, stored: Option<seq<City>>, num: string -> int)
      requires stored.None? ==> forall segment :: segment in Split(data, ';') ==> HasFiveFields(segment)
      ensures cityList == GetInitialData(stored, data, num)
    {
      cityList := GetInitialData(stored, data, num);
    }

    /** The nearest-city scan as the code writes it: one pass over the list,
        keeping the running minimum distance and the name that goes with it,
        and taking the next city when there is no minimum yet, when the
        minimum is 0, or when the city is strictly nearer. Its answer is the
        city `Nearest.ScanAsWritten` picks; with no exact match before the
        last city, that is the first city at minimum distance. */
    method ShowNearestCity(latPoint: int, longPoint: int) returns (answer: string)
      ensures |cityList| == 0 ==> answer == NotFound
      ensures |cityList| > 0 ==>
        answer == cityList[ScanAsWritten(Distances(cityList, latPoint, longPoint)).index].name
      ensures |cityList| > 0 && (forall j :: 0 <= j < |cityList| - 1 ==>
                                   cityList[j].latitude != latPoint || cityList[j].longitude != longPoint) ==>
        exists k :: IsFirstNearest(Distances(cityList, latPoint, longPoint), k) && answer == cityList[k].name
    {
      if |cityList| == 0 {
        return NotFound;
      }
      var nearestCityName := "";
      var minPath: Option<int> := None;
      ghost var ds := Distances(cityList, latPoint, longPoint);
      ghost var pick: Pick := Unset;
      for i := 0 to |cityList|
        invariant pick == ScanAsWritten(ds[..i])
        invariant pick.Unset? <==> minPath.None?
        invariant pick.Picked? ==> minPath == Some(pick.minPath) && nearestCityName == cityList[pick.index].name
      {
        var distance := SquaredDistance(latPoint, longPoint, cityList[i]);
        assert ds[..i + 1][..i] == ds[..i];
        if minPath.None? || minPath.value == 0 || distance < minPath.value {
          minPath := Some(distance);
          nearestCityName := cityList[i].name;
          pick := Picked(i, distance);
        }
      }
      assert ds[..|cityList|] == ds;
      answer := nearestCityName;
      if forall j :: 0 <= j < |cityList| - 1 ==> cityList[j].latitude != latPoint || cityList[j].longitude != longPoint {
        ScanAsWrittenAgrees(ds);
      }
    }

    /** The nearest-city scan with the evidently intended test: only an
        absent minimum counts as "nothing picked yet", so a city exactly at
        the point is kept, and the answer is always the first city at
        minimum distance. */
    method ShowNearestCityIntended(latPoint: int, longPoint: int) returns (answer: string)
      ensures |cityList| == 0 ==> answer == NotFound
      ensures |cityList| > 0 ==>
        exists k :: IsFirstNearest(Distances(cityList, latPoint, longPoint), k) && answer == cityList[k].name
    {
      if |cityList| == 0 {
        return NotFound;
      }
      var nearestCityName := "";
      var minPath: Option<int> := None;
      ghost var ds := Distances(cityList, latPoint, longPoint);
      ghost var pick: Pick := Unset;
      for i := 0 to |cityList|
        invariant pick == NearestScan(ds[..i])
        invariant pick.Unset? <==> minPath.None?
        invariant pick.Picked? ==> minPath == Some(pick.minPath) && nearestCityName == cityList[pick.index].name
      {
        var distance := SquaredDistance(latPoint, longPoint, cityList[i]);
        assert ds[..i + 1][..i] == ds[..i];
        if minPath.None? || distance < minPath.value {
          minPath := Some(distance);
          nearestCityName := cityList[i].name;
          pick := Picked(i, distance);
        }
      }
      assert ds[..|cityList|] == ds;
      answer := nearestCityName;
    }

    /** The distinct abbreviations: collected one per city, then reduced to
        first appearances, joined by spaces and trimmed. */
    method ShowStateAbbreviations() returns (answer: string)
      ensures answer == AbbreviationMessage(cityList)
    {
      if |cityList| == 0 {
        return NotFound;
      }
      var listOfStates: seq<string> := [];
      for i := 0 to |cityList|
        invariant listOfStates == Abbreviations(cityList[..i])
      {
        listOfStates := listOfStates + [cityList[i].abbreviation];
      }
      assert cityList[..|cityList|] == cityList;
      answer := "Cities abbreviation is " + Trim(Join(Dedup(listOfStates), ' '));
    }

    /** Appends the city typed into the form when none of its four inputs is
        empty; otherwise the list stays as it was. */
    method AddNewCity(name: string, abbreviation: string, latitude: string, longitude: string, num: string -> int)
      modifies this
      ensures name != "" && abbreviation != "" && latitude != "" && longitude != "" ==>
        cityList == old(cityList) + [City(name, abbreviation, num(latitude), num(longitude), None)]
      ensures name == "" || abbreviation == "" || latitude == "" || longitude == "" ==>
        cityList == old(cityList)
    {
      if name != "" && abbreviation != "" && latitude != "" && longitude != "" {
        cityList := cityList + [City(name, abbreviation, num(latitude), num(longitude), None)];
      }
    }
  }
}
