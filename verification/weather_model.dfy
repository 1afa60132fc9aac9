/** The weather payload and the result wrapper that the view-model publishes and
    the home screen renders. Only the fields the application reads are kept. */
module WeatherModel {

  datatype Location = Location(name: string, country: string, localtime: string)

  /** `icon` is the protocol-relative path the weather service sends, such as
      "//cdn.weatherapi.com/weather/64x64/day/113.png". */
  datatype Condition = Condition(text: string, icon: string)

  /** Temperature, wind and precipitation arrive as already formatted strings and
      are shown as they are; `uv` stands for the platform's rendering of the UV
      index, a floating-point number outside this model. */
  datatype Current = Current(
    tempC: string,
    condition: Condition,
    humidity: int,
    windKph: string,
    uv: string,
    precipMm: string)

  datatype Weather = Weather(location: Location, current: Current)

  /** What a weather request has produced so far; the view-model wraps it in an
      Option whose None means that no request was ever made. */
  datatype NetworkResponse = Loading | Success(data: Weather) | Error(errorMessage: string)
}
