/** Worked conversions of the trainer's area strings, using the plain
    decimal reading of `float` from `Numbers`. */
module AreaExamples {
  import opened Wrappers
  import opened Text
  import opened Numbers
  import opened Training

  lemma NoLetterNoWord(t: string, w: string)
    requires w != [] && w[0] !in t
    ensures !Contains(t, w)
  {
    forall i | 0 <= i <= |t| - |w|
      ensures !OccursAt(t, w, i)
    {
      assert t[i..i + |w|][0] == t[i];
    }
  }

  lemma NinePointSixText()
    ensures NatToDigits(9) + "." + "6" == "9.6"
    ensures AllDigits("6") && FixedPoint(9, "6") == 9.6
  {
    assert NatToDigits(9) == "9";
    assert DigitsValue("6") == 6 by {
      assert "6"[..0] == [];
    }
  }

  lemma ParseNinePointSix()
    ensures ParseFloat("9.6") == Some(9.6)
  {
    NinePointSixText();
    ParseFloatOfFixedPoint(9, "6");
  }

  lemma ParseTwo()
    ensures ParseFloat("2") == Some(2.0)
  {
    assert NatToDigits(2) == "2";
    ParseFloatOfNat(2);
  }

  lemma ParseTwelveHundred()
    ensures ParseFloat("1200") == Some(1200.0)
  {
    assert NatToDigits(1200) == "1200";
    ParseFloatOfNat(1200);
  }

  lemma ParseNotANumber()
    ensures ParseFloat("n/a") == None
  {
    StripOfPadded([], "n/a", []);
    assert [] + "n/a" + [] == "n/a";
    assert IndexOf("n/a", '.') == None;
    assert !IsDigit("n/a"[0]);
  }

  lemma MarlaText()
    ensures LeadingNumber(ParseFloat, "9.6 Marla") == Some(9.6)
    ensures Normalize("9.6 Marla") == "9.6 marla"
  {
    assert Lower("9.6") == "9.6" by { LowerAt("9.6"); }
    assert Lower("Marla") == "marla" by { LowerAt("Marla"); }
    assert "9.6" + (" " + "Marla") == "9.6 Marla";
    assert "9.6" + (" " + "marla") == "9.6 marla";
    LeadingNumberOfNumberAndWord(ParseFloat, "9.6", "Marla");
    ParseNinePointSix();
  }

  /** "9.6 Marla" is 9.6 marla, 2613.6 square feet. */
  lemma MarlaExample()
    ensures ConvertArea(ParseFloat, Str("9.6 Marla")) == Num(2613.6)
  {
    MarlaText();
    MarlaScale();
  }

  lemma MarlaScale()
    ensures ScaleByUnit(9.6, "9.6 marla") == 2613.6
  {
    var t := "9.6 marla";
    assert t[4..9] == "marla";
    assert OccursAt(t, "marla", 4);
    ScaleByUnitCases(9.6, t);
  }

  lemma KanalText()
    ensures LeadingNumber(ParseFloat, "2 Kanal") == Some(2.0)
    ensures Normalize("2 Kanal") == "2 kanal"
  {
    assert Lower("2") == "2" by { LowerAt("2"); }
    assert Lower("Kanal") == "kanal" by { LowerAt("Kanal"); }
    assert "2" + (" " + "Kanal") == "2 Kanal";
    assert "2" + (" " + "kanal") == "2 kanal";
    LeadingNumberOfNumberAndWord(ParseFloat, "2", "Kanal");
    ParseTwo();
  }

  lemma KanalScale()
    ensures ScaleByUnit(2.0, "2 kanal") == 10890.0
  {
    var t := "2 kanal";
    assert t[2..7] == "kanal";
    assert OccursAt(t, "kanal", 2);
    NoLetterNoWord(t, "marla");
    ScaleByUnitCases(2.0, t);
  }

  /** "2 Kanal" is 2 kanal, 10890 square feet. */
  lemma KanalExample()
    ensures ConvertArea(ParseFloat, Str("2 Kanal")) == Num(10890.0)
  {
    KanalText();
    KanalScale();
  }

  /** "1200" has no unit word and stays 1200. */
  lemma BareNumberExample()
    ensures ConvertArea(ParseFloat, Str("1200")) == Num(1200.0)
  {
    assert Lower("1200") == "1200" by { LowerAt("1200"); }
    NoLetterNoWord("1200", "marla");
    NoLetterNoWord("1200", "kanal");
    ConvertAreaOfBareNumber(ParseFloat, "1200");
    ParseTwelveHundred();
  }

  /** "N/A" has no leading number: it is missing, and zero once filled. */
  lemma NotANumberExample()
    ensures ConvertArea(ParseFloat, Str("N/A")) == Missing
    ensures FillMissing([ConvertArea(ParseFloat, Str("N/A"))]) == [Num(0.0)]
  {
    assert Normalize("N/A") == "n/a" by {
      assert Lower("N/A") == "n/a" by { LowerAt("N/A"); }
      StripOfPadded([], "n/a", []);
      assert [] + "n/a" + [] == "n/a";
    }
    FirstTokenAtStart("n/a", []);
    assert "n/a" + [] == "n/a";
    ParseNotANumber();
  }

  lemma SameLowercase()
    ensures Lower("9.6 marla") == Lower("9.6 MARLA")
  {
    LowerAt("9.6 marla");
    LowerAt("9.6 MARLA");
  }

  lemma Padded()
    ensures " " + "9.6 marla" + " " == " 9.6 marla "
    ensures AllSpace(" ")
  {
  }

  /** "9.6 MARLA" and " 9.6 marla " convert identically. */
  lemma CaseAndPaddingExample()
    ensures ConvertArea(ParseFloat, Str(" 9.6 marla ")) == ConvertArea(ParseFloat, Str("9.6 MARLA"))
  {
    SameLowercase();
    Padded();
    ConvertAreaIgnoresCaseAndPadding(ParseFloat, " ", "9.6 marla", " ", "9.6 MARLA");
  }
}
