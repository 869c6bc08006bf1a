/** Temperature conversion between Fahrenheit and Celsius (src/lib.ts). */
module Units {

  /** `convertToCelsius`. */
  function ToCelsius(fahrenheit: real): (celsius: real)
    ensures 9.0 * celsius == 5.0 * (fahrenheit - 32.0)
  {
    ((fahrenheit - 32.0) * 5.0) / 9.0
  }

  /** `convertToFahrenheit`. */
  function ToFahrenheit(celsius: real): (fahrenheit: real)
    ensures 5.0 * (fahrenheit - 32.0) == 9.0 * celsius
  {
    (celsius * 9.0) / 5.0 + 32.0
  }

  /** Converting to Fahrenheit and back gives the Celsius value unchanged. */
  lemma CelsiusRoundTrip(celsius: real)
    ensures ToCelsius(ToFahrenheit(celsius)) == celsius
  {
  }

  /** Converting to Celsius and back gives the Fahrenheit value unchanged. */
  lemma FahrenheitRoundTrip(fahrenheit: real)
    ensures ToFahrenheit(ToCelsius(fahrenheit)) == fahrenheit
  {
  }

  /** Water freezes at 0 C = 32 F and boils at 100 C = 212 F; -40 is the
      same on both scales, and it is the only such temperature. */
  lemma FixedPoints(t: real)
    ensures ToFahrenheit(0.0) == 32.0 && ToCelsius(32.0) == 0.0
    ensures ToFahrenheit(100.0) == 212.0 && ToCelsius(212.0) == 100.0
    ensures ToCelsius(t) == t <==> t == -40.0
    ensures ToFahrenheit(t) == t <==> t == -40.0
  {
  }

  /** Both conversions are strictly increasing. */
  lemma StrictlyIncreasing(a: real, b: real)
    requires a < b
    ensures ToCelsius(a) < ToCelsius(b)
    ensures ToFahrenheit(a) < ToFahrenheit(b)
  {
  }
}
