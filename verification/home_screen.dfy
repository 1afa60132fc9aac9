/** The home screen: which view the published weather result selects, and the
    strings the details view shows. */
module HomeScreen {
  import opened Text
  import opened WeatherModel
  import WeatherViewModel

  const Scheme := "https:"
  const SmallIcon := "64x64"
  const LargeIcon := "128x128"

  /** The icon address: the scheme is put in front of the service's
      protocol-relative path, and every small-size segment becomes the large one. */
  function IconUrl(icon: string): (url: string)
    ensures StartsWith(url, Scheme)
    ensures url == Scheme + ReplaceAll(icon, SmallIcon, LargeIcon)
    ensures !Occurs(url, SmallIcon)
    ensures !Occurs(icon, SmallIcon) ==> url == Scheme + icon
  {
    ReplaceAllPrefix(Scheme, icon, SmallIcon, LargeIcon);
    ReplaceAllLeavesNone(icon, SmallIcon, LargeIcon);
    NoOccurrenceAfterPrefix(Scheme, ReplaceAll(icon, SmallIcon, LargeIcon), SmallIcon);
    UnchangedWithoutSmallIcon(icon);
    assert (Scheme + ReplaceAll(icon, SmallIcon, LargeIcon))[..|Scheme|] == Scheme;
    ReplaceAll(Scheme + icon, SmallIcon, LargeIcon)
  }

  lemma UnchangedWithoutSmallIcon(icon: string)
    ensures !Occurs(icon, SmallIcon) ==> ReplaceAll(icon, SmallIcon, LargeIcon) == icon
  {
    if !Occurs(icon, SmallIcon) {
      ReplaceAllAbsent(icon, SmallIcon, LargeIcon);
    }
  }

  lemma HeaderSplits(name: string, country: string)
    ensures ',' !in name ==> Cut(name + ", " + country, ", ") == Some((name, country))
  {
    if ',' !in name {
      CutJoin(name, ", ", country);
    }
  }

  /** The text of the details view. */
  datatype Details = Details(
    header: string,
    temperature: string,
    iconUrl: string,
    condition: string,
    humidity: string,
    wind: string,
    uvIndex: string,
    rain: string,
    lastUpdated: string)

  /** The details view shows every field of the payload as it arrived: each one is
      read back from the text around it, and only the icon address is rewritten. */
  function WeatherDetails(w: Weather): (d: Details)
    ensures StripPrefix(d.header, w.location.name + ", ") == Some(w.location.country)
    ensures ',' !in w.location.name ==> Cut(d.header, ", ") == Some((w.location.name, w.location.country))
    ensures StripSuffix(d.temperature, "°C") == Some(w.current.tempC)
    ensures d.iconUrl == IconUrl(w.current.condition.icon)
    ensures d.condition == w.current.condition.text
    ensures StripSuffix(d.humidity, "%") == Some(IntToString(w.current.humidity))
    ensures StripSuffix(d.humidity, "%").Some? &&
            ParseInt(StripSuffix(d.humidity, "%").value) == Some(w.current.humidity)
    ensures StripSuffix(d.wind, " km/h") == Some(w.current.windKph)
    ensures d.uvIndex == w.current.uv
    ensures StripSuffix(d.rain, " mm") == Some(w.current.precipMm)
    ensures StripPrefix(d.lastUpdated, "Last updated: ") == Some(w.location.localtime)
  {
    var loc := w.location;
    var cur := w.current;
    HeaderSplits(loc.name, loc.country);
    StripPrefixJoin(loc.name + ", ", loc.country);
    StripSuffixJoin(cur.tempC, "°C");
    StripSuffixJoin(IntToString(cur.humidity), "%");
    StripSuffixJoin(cur.windKph, " km/h");
    StripSuffixJoin(cur.precipMm, " mm");
    StripPrefixJoin("Last updated: ", loc.localtime);
    Details(
      loc.name + ", " + loc.country,
      cur.tempC + "°C",
      IconUrl(cur.condition.icon),
      cur.condition.text,
      IntToString(cur.humidity) + "%",
      cur.windKph + " km/h",
      cur.uv,
      cur.precipMm + " mm",
      "Last updated: " + loc.localtime)
  }

  /** The views of the home screen with the text each shows. */
  datatype View =
    | WelcomeView(title: string, subtitle: string, action: string)
    | LoadingView(caption: string)
    | ErrorView(title: string, message: string, action: string)
    | DetailsView(details: Details)

  /** Every published result selects exactly one view: none yet gives the welcome
      view, Loading the loading view, an error the error view with its message
      shown verbatim, and a success the details of its payload. */
  function SelectView(result: Option<NetworkResponse>): (v: View)
    ensures v.WelcomeView? <==> result.None?
    ensures v.LoadingView? <==> result == Some(Loading)
    ensures v.ErrorView? <==> result.Some? && result.value.Error?
    ensures v.ErrorView? ==> v.message == result.value.errorMessage
    ensures v.DetailsView? <==> result.Some? && result.value.Success?
    ensures v.DetailsView? ==> v.details == WeatherDetails(result.value.data)
  {
    match result
    case None => WelcomeView("Weather App", "Get real-time weather information", "Get Started")
    case Some(Loading) => LoadingView("Loading weather data...")
    case Some(Error(message)) => ErrorView("Error", message, "Try Again")
    case Some(Success(data)) => DetailsView(WeatherDetails(data))
  }

  /** What the home screen shows across the view-model's life: the welcome view
      until the first request, the loading view as soon as a request is made, and
      the status code of a failed response once that completes. */
  lemma HomeFollowsViewModel(vm: WeatherViewModel.ViewModel, city: string, code: int)
    requires !WeatherViewModel.IsSuccessful(code)
    ensures SelectView(WeatherViewModel.Initial.weatherResult).WelcomeView?
    ensures SelectView(WeatherViewModel.GetData(vm, city).weatherResult) == LoadingView("Loading weather data...")
    ensures SelectView(WeatherViewModel.Complete(WeatherViewModel.GetData(vm, city), |vm.pending|,
                                                 WeatherViewModel.Response(code, None)).weatherResult)
            == ErrorView("Error", "Failed to load data: " + IntToString(code), "Try Again")
  {
  }
}
