/** utils.py: the mocked weather lookup and the weather-location list: validating a new
    "City, CC" entry, keeping the list sorted, finding the current location in it, and
    switching the current location. */
module Utils {
  import opened Wrappers
  import opened Config
  import PyStr
  import Sorting

  /** The fixed weather report for each built-in location. */
  const WEATHER_DATA: map<string, string> := map[
    "Stockholm, SE" := "1°C ❄️ | Light Snow",
    "London, UK" := "9°C ☁️ | Overcast",
    "New York, US" := "12°C ☀️ | Clear",
    "Tokyo, JP" := "15°C 🌧️ | Rain Showers",
    "Berlin, DE" := "6°C 🌥️ | Partly Cloudy",
    "Sydney, AU" := "25°C ☀️ | Sunny",
    "Uppsala, SE" := "0°C 🌨️ | Flurries",
    "Gothenburg, SE" := "2°C 🌫️ | Fog",
    "Malmö, SE" := "4°C ☁️ | Cloudy",
    "Huddinge, SE" := "1°C ❄️ | Light Snow"
  ]

  /** `fetch_weather(location)`. */
  function FetchWeather(location: string): string {
    if location == "No Location" then "Not Set"
    else if location in WEATHER_DATA then WEATHER_DATA[location]
    else "N/A - Custom Location"
  }

  /** The weather table covers exactly the built-in locations: each of them gets its own
      report, and "N/A - Custom Location" is answered exactly for the other real locations. */
  lemma WeatherCoversBuiltInLocations(location: string)
    ensures WEATHER_DATA.Keys == set l | l in INITIAL_LOCATIONS
    ensures location in INITIAL_LOCATIONS ==> FetchWeather(location) == WEATHER_DATA[location]
    ensures FetchWeather(location) == "N/A - Custom Location" <==>
      location != "No Location" && location !in INITIAL_LOCATIONS
    ensures FetchWeather(location) == "Not Set" <==> location == "No Location"
  {
    assert forall l :: l in WEATHER_DATA ==> WEATHER_DATA[l] != "N/A - Custom Location" && WEATHER_DATA[l] != "Not Set";
    assert WEATHER_DATA.Keys == set l | l in INITIAL_LOCATIONS;
  }

  datatype LocationError = NoInput | NotCityCountry | BadCountryCode | AlreadyPresent

  /** The validation `add_new_location_dialog` applies to the answer: non-empty; stripped, it
      splits on ',' into exactly two parts; the stripped city is non-empty and the stripped
      country code is two letters (`isLetter` stands for `str.isalpha`). */
  function CheckLocation(answer: Option<string>, isLetter: char -> bool): (r: Result<string, LocationError>)
    ensures r.Success? ==> Truthy(answer) && r.value == PyStr.Strip(answer.value)
    ensures r.Success? ==> PyStr.CountChar(r.value, ',') == 1 && PyStr.Trimmed(r.value)
    ensures r.Success? ==>
      var parts := PyStr.Split(r.value, ",");
      && |parts| == 2 && r.value == parts[0] + "," + parts[1] && ',' !in parts[0] && ',' !in parts[1]
      && PyStr.Strip(parts[0]) != "" && |PyStr.Strip(parts[1])| == 2
      && isLetter(PyStr.Strip(parts[1])[0]) && isLetter(PyStr.Strip(parts[1])[1])
  {
    if !Truthy(answer) then Failure(NoInput)
    else
      var newLoc := PyStr.Strip(answer.value);
      var parts := PyStr.Split(newLoc, ",");
      PyStr.SplitInTwo(newLoc, ',');
      if |parts| != 2 then Failure(NotCityCountry)
      else
        assert "," == [','];
        PyStr.ContainsChar(parts[0], ',');
        PyStr.ContainsChar(parts[1], ',');
        var city, cc := PyStr.Strip(parts[0]), PyStr.Strip(parts[1]);
        if city == "" || |cc| != 2 || !(isLetter(cc[0]) && isLetter(cc[1])) then Failure(BadCountryCode)
        else Success(newLoc)
  }

  /** Text with exactly one ',' splits into the parts on either side of it. */
  lemma SplitAtSoleComma(a: string, b: string)
    requires ',' !in a && ',' !in b
    ensures PyStr.Split(a + "," + b, ",") == [a, b]
  {
    var s := a + "," + b;
    assert "," == [','];
    PyStr.ContainsChar(a, ',');
    PyStr.ContainsChar(b, ',');
    PyStr.FindMarker(a, ",", b);
    assert s[..|a|] == a && s[|a| + 1..] == b;
    assert PyStr.Split(b, ",") == [b];
  }

  /** Stripping one leading space off trimmed text gives the text. */
  lemma StripLeadingSpace(t: string)
    requires t != [] && PyStr.Trimmed(t)
    ensures PyStr.Strip(" " + t) == t
  {
    assert (" " + t)[1..] == t;
    assert PyStr.LStrip(" " + t) == PyStr.LStrip(t) == t;
  }

  /** "City, CC" written the usual way is accepted as written: a trimmed, non-empty city
      without ',' and a two-letter code. */
  lemma CityCountryAccepted(city: string, cc: string, isLetter: char -> bool)
    requires city != [] && PyStr.Trimmed(city) && ',' !in city
    requires |cc| == 2 && isLetter(cc[0]) && isLetter(cc[1])
    requires cc[0] != ',' && cc[1] != ',' && !PyStr.IsSpace(cc[0]) && !PyStr.IsSpace(cc[1])
    ensures CheckLocation(Some(city + ", " + cc), isLetter) == Success(city + ", " + cc)
  {
    CityCountryParts(city, cc);
    CheckAccepts(city + ", " + cc, city, " " + cc, isLetter);
  }

  /** "City, CC" is already stripped and splits at its comma into the city and " CC". */
  lemma CityCountryParts(city: string, cc: string)
    requires city != [] && PyStr.Trimmed(city) && ',' !in city
    requires |cc| == 2 && cc[0] != ',' && cc[1] != ',' && !PyStr.IsSpace(cc[0]) && !PyStr.IsSpace(cc[1])
    ensures PyStr.Strip(city + ", " + cc) == city + ", " + cc
    ensures PyStr.Split(city + ", " + cc, ",") == [city, " " + cc]
    ensures PyStr.Strip(city) == city && PyStr.Strip(" " + cc) == cc
  {
    var s := city + ", " + cc;
    var rest := " " + cc;
    assert s == city + "," + rest;
    assert ',' !in rest;
    PyStr.StripTrimmed(s);
    SplitAtSoleComma(city, rest);
    PyStr.StripTrimmed(city);
    StripLeadingSpace(cc);
  }

  /** The validation accepts an answer whose stripped text splits into a non-empty city and a
      two-letter code. */
  lemma CheckAccepts(answer: string, city: string, code: string, isLetter: char -> bool)
    requires answer != [] && PyStr.Split(PyStr.Strip(answer), ",") == [city, code]
    requires PyStr.Strip(city) != [] && |PyStr.Strip(code)| == 2
    requires isLetter(PyStr.Strip(code)[0]) && isLetter(PyStr.Strip(code)[1])
    ensures CheckLocation(Some(answer), isLetter) == Success(PyStr.Strip(answer))
  {
  }

  /** An answer whose stripped text does not hold exactly one ',' is refused as not "City, CC". */
  lemma CommaCountDecides(answer: string, isLetter: char -> bool)
    requires answer != "" && PyStr.CountChar(PyStr.Strip(answer), ',') != 1
    ensures CheckLocation(Some(answer), isLetter) == Failure(NotCityCountry)
  {
    assert "," == [','];
    PyStr.SplitInTwo(PyStr.Strip(answer), ',');
  }

  /** `add_new_location_dialog(...)`: a valid location not already listed is added, the list
      is sorted, the configuration saved and the listbox repopulated; anything else changes nothing. */
  method AddNewLocation(app: AppState, answer: Option<string>, isLetter: char -> bool)
    returns (r: Result<string, LocationError>, selectedIndex: int)
    modifies app
    ensures CheckLocation(answer, isLetter).Failure? ==> r == CheckLocation(answer, isLetter)
    ensures r.Success? <==>
      CheckLocation(answer, isLetter).Success? && CheckLocation(answer, isLetter).value !in old(app.defaultLocations)
    ensures r == Failure(AlreadyPresent) <==>
      CheckLocation(answer, isLetter).Success? && CheckLocation(answer, isLetter).value in old(app.defaultLocations)
    ensures r.Success? ==>
      && r == CheckLocation(answer, isLetter)
      && r.value !in old(app.defaultLocations)
      && app.defaultLocations == Sorting.Sort(old(app.defaultLocations) + [r.value])
      && Sorting.Sorted(app.defaultLocations)
      && multiset(app.defaultLocations) == multiset(old(app.defaultLocations)) + multiset{r.value}
      && app.Lists() == Persisted(old(app.Lists()))
    ensures r.Failure? ==> app.Lists() == old(app.Lists()) && app.defaultLocations == old(app.defaultLocations)
    ensures app.currentTheme == old(app.currentTheme) && app.currentWeatherLocation == old(app.currentWeatherLocation)
    ensures app.View() == old(app.View())
    ensures r.Failure? ==> selectedIndex == -1
    ensures r.Success? ==>
      && (selectedIndex == -1 <==> app.currentWeatherLocation !in app.defaultLocations)
      && (selectedIndex != -1 ==>
            0 <= selectedIndex < |app.defaultLocations| && app.defaultLocations[selectedIndex] == app.currentWeatherLocation)
  {
    selectedIndex := -1;
    r := CheckLocation(answer, isLetter);
    if r.Failure? {
      return;
    }
    var newLoc := r.value;
    if newLoc in app.defaultLocations {
      r := Failure(AlreadyPresent);
      return;
    }
    selectedIndex := InsertLocation(app, newLoc);
  }

  /** The tail of `add_new_location_dialog`: append and sort, save, repopulate the listbox. */
  method InsertLocation(app: AppState, newLoc: string) returns (selectedIndex: int)
    modifies app
    ensures app.defaultLocations == Sorting.Sort(old(app.defaultLocations) + [newLoc])
    ensures Sorting.Sorted(app.defaultLocations)
    ensures multiset(app.defaultLocations) == multiset(old(app.defaultLocations)) + multiset{newLoc}
    ensures app.Lists() == Persisted(old(app.Lists()))
    ensures app.currentTheme == old(app.currentTheme) && app.currentWeatherLocation == old(app.currentWeatherLocation)
    ensures app.View() == old(app.View())
    ensures selectedIndex == -1 <==> app.currentWeatherLocation !in app.defaultLocations
    ensures selectedIndex != -1 ==>
      0 <= selectedIndex < |app.defaultLocations| && app.defaultLocations[selectedIndex] == app.currentWeatherLocation
  {
    app.defaultLocations := Sorting.Sort(app.defaultLocations + [newLoc]);
    var _ := app.SaveConfig();
    Sorting.SortSorted(old(app.defaultLocations) + [newLoc]);
    Sorting.SortIdempotent(app.defaultLocations);
    selectedIndex := PopulateLocationListbox(app);
  }

  /** The loop of `populate_location_listbox` that finds the current location: the last
      position holding it, or -1. */
  method SelectedLocationIndex(locations: seq<string>, current: string) returns (selectedIndex: int)
    ensures selectedIndex == -1 <==> current !in locations
    ensures selectedIndex != -1 ==>
      0 <= selectedIndex < |locations| && locations[selectedIndex] == current
      && forall j :: selectedIndex < j < |locations| ==> locations[j] != current
  {
    selectedIndex := -1;
    var i := 0;
    while i < |locations|
      invariant 0 <= i <= |locations|
      invariant selectedIndex == -1 <==> current !in locations[..i]
      invariant selectedIndex != -1 ==>
        0 <= selectedIndex < i && locations[selectedIndex] == current
        && forall j :: selectedIndex < j < i ==> locations[j] != current
    {
      if locations[i] == current {
        selectedIndex := i;
      }
      assert locations[..i + 1] == locations[..i] + [locations[i]];
      i := i + 1;
    }
    assert locations[..i] == locations;
  }

  /** `populate_location_listbox(...)`: sorts the locations in place and returns the index
      selected for the current location. */
  method PopulateLocationListbox(app: AppState) returns (selectedIndex: int)
    modifies app`defaultLocations
    ensures app.defaultLocations == Sorting.Sort(old(app.defaultLocations))
    ensures Sorting.Sorted(app.defaultLocations)
    ensures multiset(app.defaultLocations) == multiset(old(app.defaultLocations))
    ensures selectedIndex == -1 <==> app.currentWeatherLocation !in app.defaultLocations
    ensures selectedIndex != -1 ==>
      0 <= selectedIndex < |app.defaultLocations| && app.defaultLocations[selectedIndex] == app.currentWeatherLocation
  {
    Sorting.SortSorted(app.defaultLocations);
    app.defaultLocations := Sorting.Sort(app.defaultLocations);
    selectedIndex := SelectedLocationIndex(app.defaultLocations, app.currentWeatherLocation);
  }

  /** `change_weather_location(new_location)`: the current location becomes exactly the given
      one and the configuration is saved. */
  method ChangeWeatherLocation(app: AppState, newLocation: string)
    modifies app
    ensures app.currentWeatherLocation == newLocation
    ensures app.currentTheme == old(app.currentTheme) && app.defaultLocations == old(app.defaultLocations)
    ensures app.Lists() == Persisted(old(app.Lists())) && app.View() == old(app.View())
  {
    app.currentWeatherLocation := newLocation;
    var _ := app.SaveConfig();
  }
}
