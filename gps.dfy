/**
  Conversion of an EXIF GPS coordinate (three rationals for degrees,
  minutes and seconds, and a hemisphere letter) to signed decimal degrees.
  The arithmetic is exact: `real` stands for Python's `float`.
 */
module Gps {
  import opened Wrappers
  import opened Text

  /** An EXIF rational as the tag reader hands it over. */
  datatype Ratio = Ratio(num: int, den: int)

  /** The DMS value can be converted: three components, none with a zero denominator. */
  predicate WellFormed(value: seq<Ratio>) {
    |value| >= 3 && value[0].den != 0 && value[1].den != 0 && value[2].den != 0
  }

  function RatioValue(r: Ratio): real
    requires r.den != 0
  {
    r.num as real / r.den as real
  }

  /** The angle the three components denote, in seconds of arc. */
  function ArcSeconds(value: seq<Ratio>): real
    requires WellFormed(value)
  {
    3600.0 * RatioValue(value[0]) + 60.0 * RatioValue(value[1]) + RatioValue(value[2])
  }

  /** The hemisphere letters that make a coordinate negative, compared after upper-casing. */
  predicate IsNegativeRef(ref: string) {
    Upper(ref) == "S" || Upper(ref) == "W"
  }

  /**
    `convert_to_degrees(value, ref)`. Python raises on fewer than three
    components or a zero denominator; the model answers None there. Any
    further components are ignored.
   */
  function ConvertToDegrees(value: seq<Ratio>, ref: string): (r: Option<real>)
    ensures r.Some? <==> WellFormed(value)
    ensures r.Some? && !IsNegativeRef(ref) ==> r.value * 3600.0 == ArcSeconds(value)
    ensures r.Some? && IsNegativeRef(ref) ==> r.value * 3600.0 == -ArcSeconds(value)
  {
    if !WellFormed(value) then None
    else
      var d := RatioValue(value[0]);
      var m := RatioValue(value[1]);
      var s := RatioValue(value[2]);
      var degrees := d + m / 60.0 + s / 3600.0;
      if IsNegativeRef(ref) then Some(-degrees) else Some(degrees)
  }

  /** Exactly the one-letter references S, s, W and w negate. */
  lemma NegativeRefLetters(ref: string)
    ensures IsNegativeRef(ref) <==> ref in {"S", "s", "W", "w"}
  {
    if IsNegativeRef(ref) {
      assert |ref| == 1;
      assert UpperChar(ref[0]) == 'S' || UpperChar(ref[0]) == 'W';
      assert ref == [ref[0]];
    } else {
      assert Upper("S") == "S" && Upper("s") == "S";
      assert Upper("W") == "W" && Upper("w") == "W";
    }
  }

  /** The reference is compared without regard to case. */
  lemma ConvertIgnoresCase(value: seq<Ratio>, ref: string)
    ensures ConvertToDegrees(value, ref) == ConvertToDegrees(value, Upper(ref))
  {
    UpperIdempotent(ref);
  }

  /** Flipping the hemisphere negates the result: N against S, E against W. */
  lemma HemisphereFlip(value: seq<Ratio>)
    requires WellFormed(value)
    ensures ConvertToDegrees(value, "S").value == -ConvertToDegrees(value, "N").value
    ensures ConvertToDegrees(value, "W").value == -ConvertToDegrees(value, "E").value
    ensures ConvertToDegrees(value, "s") == ConvertToDegrees(value, "S")
  {
    NegativeRefLetters("N");
    NegativeRefLetters("S");
    NegativeRefLetters("E");
    NegativeRefLetters("W");
    NegativeRefLetters("s");
  }

  /** Every reference other than S and W, in either case, leaves the sign as in "N". */
  lemma OtherRefsArePositive(value: seq<Ratio>, ref: string)
    requires ref !in {"S", "s", "W", "w"}
    ensures ConvertToDegrees(value, ref) == ConvertToDegrees(value, "N")
  {
    NegativeRefLetters(ref);
    NegativeRefLetters("N");
  }

  /** 40 degrees 30 minutes north is 40.5; south it is -40.5. */
  lemma FortyAndAHalf()
    ensures ConvertToDegrees([Ratio(40, 1), Ratio(30, 1), Ratio(0, 1)], "N") == Some(40.5)
    ensures ConvertToDegrees([Ratio(40, 1), Ratio(30, 1), Ratio(0, 1)], "S") == Some(-40.5)
  {
    NegativeRefLetters("N");
    NegativeRefLetters("S");
  }
}
