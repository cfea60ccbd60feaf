/** The city records and the queries over a list of them: reading the list
    from its delimited text form, the four compass-direction queries, the
    distinct state abbreviations and the search filter of the table. */
module Cities {
  import opened Text

  datatype Option<T> = None | Some(value: T)

  /** One city. Coordinates are fixed-point degrees (hundredths of a degree
      in the examples); `population` is absent on a city added by hand, whose
      input form has no population field. */
  datatype City = City(
    name: string,
    abbreviation: string,
    latitude: int,
    longitude: int,
    population: Option<int>)

  /** The answer of every query on an empty list. */
  const NotFound: string := "not found"

  /** The answer of the position query to a token it does not know. */
  const UnknownPosition: string := "You passed an unknown value"

  // ---------------------------------------------------------------------
  // Reading the list from text

  /** A record segment has (at least) the five comma-separated fields the
      reader takes; on a shorter one the reader fails. */
  predicate HasFiveFields(segment: string) {
    |Split(segment, ',')| >= 5
  }

  /** One record from one segment: the trimmed comma fields 0 to 4, read as
      name, abbreviation, latitude, longitude and population; `num` is the
      host's decimal reader. */
  function ParseCity(segment: string, num: string -> int): (c: City)
    requires HasFiveFields(segment)
    ensures var fields := Split(segment, ',');
      && c.name == Trim(fields[0]) && c.abbreviation == Trim(fields[1])
      && c.latitude == num(Trim(fields[2])) && c.longitude == num(Trim(fields[3]))
      && c.population == Some(num(Trim(fields[4])))
  {
    var fields := Split(segment, ',');
    City(Trim(fields[0]), Trim(fields[1]),
         num(Trim(fields[2])), num(Trim(fields[3])), Some(num(Trim(fields[4]))))
  }

  /** The initial list: a stored snapshot when there is one, otherwise one
      record per `;`-separated segment of `data`, in segment order. */
  function GetInitialData(stored: Option<seq<City>>, data: string, num: string -> int): (cities: seq<City>)
    requires stored.None? ==> forall segment :: segment in Split(data, ';') ==> HasFiveFields(segment)
    ensures stored.Some? ==> cities == stored.value
    ensures stored.None? ==> |cities| == |Split(data, ';')|
    ensures stored.None? ==> forall i :: 0 <= i < |cities| ==> cities[i] == ParseCity(Split(data, ';')[i], num)
  {
    if stored.Some? then stored.value
    else
      var segments := Split(data, ';');
      seq(|segments|, i requires 0 <= i < |segments| => ParseCity(segments[i], num))
  }

  /** A field that can be written out and read back: no separator in it and
      no white space at either end. */
  predicate IsPlainField(s: string) {
    ',' !in s && ';' !in s && (s == [] || (!IsWhitespace(s[0]) && !IsWhitespace(s[|s| - 1])))
  }

  /** A city that the delimited form can hold, with `show` writing numbers. */
  predicate IsWritable(c: City, show: int -> string) {
    && c.population.Some?
    && IsPlainField(c.name) && IsPlainField(c.abbreviation)
    && IsPlainField(show(c.latitude)) && IsPlainField(show(c.longitude))
    && IsPlainField(show(c.population.value))
  }

  /** The five fields of one city in reading order. */
  function CityFields(c: City, show: int -> string): (fields: seq<string>)
    requires IsWritable(c, show)
    ensures |fields| == 5
  {
    [c.name, c.abbreviation, show(c.latitude), show(c.longitude), show(c.population.value)]
  }

  /** Each city written as its fields joined by `,`. */
  function WrittenRecords(cities: seq<City>, show: int -> string): (records: seq<string>)
    requires forall i :: 0 <= i < |cities| ==> IsWritable(cities[i], show)
    ensures |records| == |cities|
    ensures forall i :: 0 <= i < |cities| ==> records[i] == Join(CityFields(cities[i], show), ',')
  {
    seq(|cities|, i requires 0 <= i < |cities| =>
      assert IsWritable(cities[i], show); Join(CityFields(cities[i], show), ','))
  }

  /** The delimited text form of a list: fields joined by `,`, records by `;`. */
  function WriteCities(cities: seq<City>, show: int -> string): string
    requires forall i :: 0 <= i < |cities| ==> IsWritable(cities[i], show)
  {
    Join(WrittenRecords(cities, show), ';')
  }

  /** Five plain fields joined by commas read back as those fields. */
  lemma ParseJoinedFields(fields: seq<string>, num: string -> int)
    requires |fields| == 5
    requires forall k :: 0 <= k < 5 ==> IsPlainField(fields[k])
    ensures HasFiveFields(Join(fields, ','))
    ensures ParseCity(Join(fields, ','), num)
      == City(fields[0], fields[1], num(fields[2]), num(fields[3]), Some(num(fields[4])))
  {
    forall k | 0 <= k < 5 ensures Trim(fields[k]) == fields[k] {
      TrimUnchanged(fields[k]);
    }
    SplitJoin(fields, ',');
  }

  /** One written record holds no `;` and reads back as the same city. */
  lemma ParseWrittenCity(c: City, show: int -> string, num: string -> int)
    requires forall x :: num(show(x)) == x
    requires IsWritable(c, show)
    ensures ';' !in Join(CityFields(c, show), ',')
    ensures HasFiveFields(Join(CityFields(c, show), ','))
    ensures ParseCity(Join(CityFields(c, show), ','), num) == c
  {
    var fields := CityFields(c, show);
    assert IsPlainField(fields[0]) && IsPlainField(fields[1]) && IsPlainField(fields[2]);
    assert IsPlainField(fields[3]) && IsPlainField(fields[4]);
    forall i | 0 <= i < |fields| ensures ';' !in fields[i] {
      assert IsPlainField(fields[i]);
    }
    NoSeparatorInJoin(fields, ',', ';');
    ParseJoinedFields(fields, num);
    var lat, long, pop := fields[2], fields[3], fields[4];
    assert num(lat) == c.latitude && num(long) == c.longitude && num(pop) == c.population.value;
  }

  /** Writing a non-empty list in the delimited form and reading it back
      (with no stored snapshot) gives the same list, when the number reader
      inverts the number writer. */
  lemma {:induction false} ReadWriteRoundTrip(cities: seq<City>, show: int -> string, num: string -> int)
    requires |cities| >= 1
    requires forall x :: num(show(x)) == x
    requires forall i :: 0 <= i < |cities| ==> IsWritable(cities[i], show)
    ensures forall segment :: segment in Split(WriteCities(cities, show), ';') ==> HasFiveFields(segment)
    ensures GetInitialData(None, WriteCities(cities, show), num) == cities
  {
    var records := WrittenRecords(cities, show);
    forall i | 0 <= i < |records|
      ensures ';' !in records[i]
      ensures HasFiveFields(records[i]) && ParseCity(records[i], num) == cities[i]
    {
      ParseWrittenCity(cities[i], show, num);
    }
    SplitJoin(records, ';');
    ReadRecords(WriteCities(cities, show), records, cities, num);
  }

  /** Text whose `;` segments are records that each read as their city
      reads as the list of those cities. */
  lemma ReadRecords(data: string, records: seq<string>, cities: seq<City>, num: string -> int)
    requires Split(data, ';') == records
    requires |records| == |cities|
    requires forall i :: 0 <= i < |records| ==> HasFiveFields(records[i]) && ParseCity(records[i], num) == cities[i]
    ensures forall segment :: segment in Split(data, ';') ==> HasFiveFields(segment)
    ensures GetInitialData(None, data, num) == cities
  {
    forall segment | segment in records ensures HasFiveFields(segment) {
      var i :| 0 <= i < |records| && records[i] == segment;
    }
    var read := GetInitialData(None, data, num);
    forall i | 0 <= i < |cities| ensures read[i] == cities[i] {
      assert read[i] == ParseCity(records[i], num);
    }
  }

  /** A join of pieces free of `c`, with a separator other than `c`, is free of `c`. */
  lemma {:induction false} NoSeparatorInJoin(parts: seq<string>, sep: char, c: char)
    requires sep != c
    requires forall i :: 0 <= i < |parts| ==> c !in parts[i]
    ensures c !in Join(parts, sep)
    decreases |parts|
  {
    if |parts| > 1 {
      NoSeparatorInJoin(parts[1..], sep, c);
    }
  }

  // ---------------------------------------------------------------------
  // Compass-direction queries

  datatype Direction = Northernmost | Southernmost | Westernmost | Easternmost

  /** The position tokens the query understands. */
  function DirectionOf(position: string): (d: Option<Direction>)
    ensures d == Some(Northernmost) <==> position == "northernmost"
    ensures d == Some(Southernmost) <==> position == "southernmost"
    ensures d == Some(Westernmost) <==> position == "westernmost"
    ensures d == Some(Easternmost) <==> position == "easternmost"
  {
    if position == "northernmost" then Some(Northernmost)
    else if position == "southernmost" then Some(Southernmost)
    else if position == "westernmost" then Some(Westernmost)
    else if position == "easternmost" then Some(Easternmost)
    else None
  }

  /** The reducer's test: `a` lies strictly further in direction `d` than `b`
      (higher latitude for north, lower for south, lower longitude for west,
      higher for east). */
  predicate Beyond(d: Direction, a: City, b: City) {
    match d
    case Northernmost => a.latitude > b.latitude
    case Southernmost => a.latitude < b.latitude
    case Westernmost => a.longitude < b.longitude
    case Easternmost => a.longitude > b.longitude
  }

  /** `k` is the last position of a city that no city lies beyond: it is
      extreme in direction `d`, and every later city lies strictly short of it. */
  predicate IsLastExtreme(cities: seq<City>, d: Direction, k: int) {
    && 0 <= k < |cities|
    && (forall j :: 0 <= j < |cities| ==> !Beyond(d, cities[j], cities[k]))
    && (forall j :: k < j < |cities| ==> Beyond(d, cities[k], cities[j]))
  }

  /** The left-to-right reduction that keeps the accumulator only when it
      lies strictly beyond the next city, so the later city wins a tie. */
  function ReduceExtreme(cities: seq<City>, d: Direction): (k: nat)
    requires |cities| > 0
    ensures IsLastExtreme(cities, d, k)
    decreases |cities|
  {
    if |cities| == 1 then 0
    else
      var last := |cities| - 1;
      var acc := ReduceExtreme(cities[..last], d);
      assert forall j :: 0 <= j < last ==> cities[..last][j] == cities[j];
      if Beyond(d, cities[acc], cities[last]) then acc else last
  }

  /** At most one position is the last extreme one. */
  lemma LastExtremeUnique(cities: seq<City>, d: Direction, k: int, k': int)
    requires IsLastExtreme(cities, d, k) && IsLastExtreme(cities, d, k')
    ensures k == k'
  {
    assert !Beyond(d, cities[k], cities[k']) && !Beyond(d, cities[k'], cities[k]);
  }

  /** The name of the city furthest in the requested direction; the sentinel
      texts on an empty list and on an unknown token. */
  function CityByPosition(cities: seq<City>, position: string): (answer: string)
    ensures |cities| == 0 ==> answer == NotFound
    ensures |cities| > 0 && DirectionOf(position).None? ==> answer == UnknownPosition
    ensures |cities| > 0 && DirectionOf(position).Some? ==>
      exists k :: IsLastExtreme(cities, DirectionOf(position).value, k) && answer == cities[k].name
  {
    if |cities| == 0 then NotFound
    else match DirectionOf(position)
      case None => UnknownPosition
      case Some(d) => cities[ReduceExtreme(cities, d)].name
  }

  /** A known token on a non-empty list answers the name of the last
      extreme city, whichever way that city was found. */
  lemma CityByPositionIs(cities: seq<City>, position: string, d: Direction, k: int)
    requires DirectionOf(position) == Some(d)
    requires IsLastExtreme(cities, d, k)
    ensures CityByPosition(cities, position) == cities[k].name
  {
    LastExtremeUnique(cities, d, k, ReduceExtreme(cities, d));
  }

  /** The sentence reporting a position query; the answer is its tail. */
  function ShowCityPosition(cities: seq<City>, position: string): (message: string)
    ensures |message| == |position| + 8 + |CityByPosition(cities, position)|
    ensures message[..4] == "The "
    ensures message[4..4 + |position|] == position
    ensures message[4 + |position|..] == " is " + CityByPosition(cities, position)
  {
    var answer := CityByPosition(cities, position);
    var message := "The " + position + " is " + answer;
    assert message == "The " + (position + (" is " + answer));
    assert message[4..] == position + (" is " + answer);
    message
  }

  // ---------------------------------------------------------------------
  // Distinct state abbreviations

  /** The abbreviations of the cities, one per city, in list order. */
  function Abbreviations(cities: seq<City>): (abbrs: seq<string>)
    ensures |abbrs| == |cities|
    ensures forall i :: 0 <= i < |cities| ==> abbrs[i] == cities[i].abbreviation
  {
    seq(|cities|, i requires 0 <= i < |cities| => cities[i].abbreviation)
  }

  /** The distinct items, each kept where it first appears: no item twice,
      and the same items as the input. */
  function Dedup(items: seq<string>): (r: seq<string>)
    ensures forall i, j :: 0 <= i < j < |r| ==> r[i] != r[j]
    ensures forall x :: x in r <==> x in items
    decreases |items|
  {
    if |items| == 0 then []
    else
      var prev := Dedup(items[..|items| - 1]);
      var x := items[|items| - 1];
      assert items == items[..|items| - 1] + [x];
      if x in prev then prev else prev + [x]
  }

  /** One more item at the end is kept exactly when it is new. */
  lemma DedupAppend(items: seq<string>, x: string)
    ensures Dedup(items + [x]) == if x in Dedup(items) then Dedup(items) else Dedup(items) + [x]
  {
    assert (items + [x])[..|items|] == items;
  }

  /** A list with no item twice is kept as it is. */
  lemma {:induction false} DedupNoRepeats(items: seq<string>)
    requires forall i, j :: 0 <= i < j < |items| ==> items[i] != items[j]
    ensures Dedup(items) == items
    decreases |items|
  {
    if |items| > 0 {
      var n := |items| - 1;
      var front := items[..n];
      DedupNoRepeats(front);
      assert items[n] !in front by {
        forall i | 0 <= i < n ensures front[i] != items[n] {
          assert front[i] == items[i];
        }
      }
      assert items == front + [items[n]];
    }
  }

  /** `a` appears in `items` before any appearance of `b`. */
  predicate AppearsFirst(items: seq<string>, a: string, b: string) {
    forall p :: 0 <= p < |items| && items[p] == b ==> a in items[..p]
  }

  /** The distinct items come in the order of their first appearances. */
  lemma {:induction false} DedupFirstAppearanceOrder(items: seq<string>)
    ensures forall i, j :: 0 <= i < j < |Dedup(items)| ==> AppearsFirst(items, Dedup(items)[i], Dedup(items)[j])
    decreases |items|
  {
    if |items| > 0 {
      var n := |items| - 1;
      var front := items[..n];
      var prev := Dedup(front);
      var x := items[n];
      DedupFirstAppearanceOrder(front);
      var r := Dedup(items);
      forall i, j | 0 <= i < j < |r| ensures AppearsFirst(items, r[i], r[j]) {
        forall p | 0 <= p < |items| && items[p] == r[j] ensures r[i] in items[..p] {
          assert r[i] in prev && r[i] == prev[i];
          if p == n {
            assert items[..p] == front;
          } else {
            assert front[..p] == items[..p];
            if j < |prev| {
              assert r[j] == prev[j];
              assert AppearsFirst(front, prev[i], prev[j]);
              assert front[p] == prev[j];
            }
          }
        }
      }
    }
  }

  /** The abbreviation listing: the distinct abbreviations joined by single
      spaces, white space trimmed from both ends. It is empty for no cities
      and never starts or ends with white space. */
  function AbbreviationListing(cities: seq<City>): (listing: string)
    ensures |cities| == 0 ==> listing == ""
    ensures listing == [] || (!IsWhitespace(listing[0]) && !IsWhitespace(listing[|listing| - 1]))
  {
    Trim(Join(Dedup(Abbreviations(cities)), ' '))
  }

  /** The answer of the abbreviation query: "not found" for no cities, else
      the fixed lead-in followed by the listing. */
  function AbbreviationMessage(cities: seq<City>): (message: string)
    ensures |cities| == 0 ==> message == NotFound
    ensures |cities| > 0 ==> |message| >= 23 && message[..23] == "Cities abbreviation is "
    ensures |cities| > 0 ==> message[23..] == AbbreviationListing(cities)
  {
    if |cities| == 0 then NotFound
    else "Cities abbreviation is " + AbbreviationListing(cities)
  }

  /** When every abbreviation is a single word, the listing splits on spaces
      into exactly the distinct abbreviations, each once, in order of first
      appearance. */
  lemma AbbreviationListingWords(cities: seq<City>)
    requires |cities| > 0
    requires forall i :: 0 <= i < |cities| ==> IsToken(cities[i].abbreviation)
    ensures Split(AbbreviationListing(cities), ' ') == Dedup(Abbreviations(cities))
  {
    var abbrs := Abbreviations(cities);
    var words := Dedup(abbrs);
    assert abbrs[0] in words;
    forall i | 0 <= i < |words| ensures IsToken(words[i]) && ' ' !in words[i] {
      assert words[i] in abbrs;
      var k :| 0 <= k < |abbrs| && abbrs[k] == words[i];
      assert IsToken(cities[k].abbreviation);
    }
    var joined := Join(words, ' ');
    JoinEnds(words, ' ');
    TrimUnchanged(joined);
    SplitJoin(words, ' ');
  }

  // ---------------------------------------------------------------------
  // Search filter

  /** The field the table search looks at. */
  datatype SearchField = ByName | ByAbbreviation

  function FieldText(c: City, field: SearchField): string {
    match field
    case ByName => c.name
    case ByAbbreviation => c.abbreviation
  }

  /** The case-insensitive test: the lower-cased field contains the
      lower-cased query. An empty query matches every city; a query longer
      than the field matches none. */
  function Matches(c: City, field: SearchField, query: string): (m: bool)
    ensures query == [] ==> m
    ensures m ==> |query| <= |FieldText(c, field)|
  {
    Contains(ToLower(FieldText(c, field)), ToLower(query))
  }

  /** The cities the search shows, in list order. */
  function Filter(cities: seq<City>, field: SearchField, query: string): (shown: seq<City>)
    ensures |shown| <= |cities|
    ensures forall c :: c in shown ==> c in cities && Matches(c, field, query)
    ensures forall c :: c in cities && Matches(c, field, query) ==> c in shown
    decreases |cities|
  {
    if |cities| == 0 then []
    else
      var rest := Filter(cities[1..], field, query);
      assert forall c :: c in cities <==> c == cities[0] || c in cities[1..];
      if Matches(cities[0], field, query) then [cities[0]] + rest else rest
  }

  /** Filtering a concatenation filters each part and keeps them in order. */
  lemma {:induction false} FilterConcat(a: seq<City>, b: seq<City>, field: SearchField, query: string)
    ensures Filter(a + b, field, query) == Filter(a, field, query) + Filter(b, field, query)
    decreases |a|
  {
    if |a| > 0 {
      assert (a + b)[1..] == a[1..] + b;
      FilterConcat(a[1..], b, field, query);
    } else {
      assert a + b == b;
    }
  }

  /** Filtering a second time with the same query changes nothing. */
  lemma {:induction false} FilterIdempotent(cities: seq<City>, field: SearchField, query: string)
    ensures Filter(Filter(cities, field, query), field, query) == Filter(cities, field, query)
    decreases |cities|
  {
    if |cities| > 0 {
      FilterIdempotent(cities[1..], field, query);
    }
  }

  /** The case of the query does not matter. */
  lemma FilterIgnoresQueryCase(cities: seq<City>, field: SearchField, query: string)
    ensures Filter(cities, field, query) == Filter(cities, field, ToLower(query))
    decreases |cities|
  {
    ToLowerIdempotent(query);
    if |cities| > 0 {
      FilterIgnoresQueryCase(cities[1..], field, query);
    }
  }
}
