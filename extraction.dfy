/** `extract_custom_fields`: the GSTIN and the HSN code found in the full
    recognised text of a receipt. */
module Extraction {
  import opened PyValues
  import opened Ascii
  import Gstin
  import Hsn

  /** The `(gstin, hsn)` pair; each is None when its pattern finds nothing. */
  datatype CustomFields = CustomFields(gstin: Option<string>, hsn: Option<string>)

  function ExtractCustomFields(allText: string): (r: CustomFields)
    ensures r.gstin.Some? <==> exists s, e :: Gstin.IsMatch(allText, s, e)
    ensures r.gstin.Some? ==>
      exists s, e :: Gstin.IsMatch(allText, s, e) && Gstin.NoMatchBetween(allText, 0, s) && r.gstin.val == allText[s..e]
    ensures r.hsn.Some? <==> exists s :: !Hsn.NoMatchAt(allText, s)
    ensures r.hsn.Some? ==>
      exists m :: Hsn.IsMatch(allText, m) && Hsn.NoMatchBetween(allText, 0, m.start)
                  && r.hsn.val == allText[m.digitsAt..m.digitsAt + m.len]
    ensures r.hsn.Some? ==> Hsn.MinDigits <= |r.hsn.val| <= Hsn.MaxDigits
    ensures r.hsn.Some? ==> forall i :: 0 <= i < |r.hsn.val| ==> IsDigit(r.hsn.val[i])
  {
    CustomFields(Gstin.Find(allText), Hsn.Find(allText))
  }

  /** The GSTIN reported is the text of the earliest match: it begins with
      the label in some case and ends with the fifteen-character identifier. */
  lemma GstinIsEarliestLabelledMatch(allText: string, s: int, e: int)
    requires Gstin.IsMatch(allText, s, e)
    ensures var g := ExtractCustomFields(allText).gstin;
      && g.Some?
      && |g.val| >= |Gstin.Label| + Gstin.IdLength
      && LabelAt(g.val, 0, Gstin.Label)
      && AllAlnum(g.val, |g.val| - Gstin.IdLength, |g.val|)
      && exists s', e' :: s' <= s && Gstin.IsMatch(allText, s', e') && g.val == allText[s'..e']
  {
    var m := Gstin.Search(allText).val;
    Gstin.MatchedTextShape(allText, m.start, m.end);
  }

  /** The HSN code reported is the digits of the earliest match of either
      alternative, and where that match starts the `CODE` alternative wins. */
  lemma HsnIsEarliestMatch(allText: string, s: nat)
    requires !Hsn.NoMatchAt(allText, s)
    ensures Hsn.Search(allText).Some?
    ensures var m := Hsn.Search(allText).val;
      && m.start <= s
      && ExtractCustomFields(allText).hsn == Some(allText[m.digitsAt..m.digitsAt + m.len])
      && (m.alt.Plain? ==> Hsn.NoCodeMatchAt(allText, m.start))
  {
    var m := Hsn.Search(allText).val;
    assert Hsn.Find(allText) == Some(Hsn.Digits(allText, m));
  }

  /** A receipt line carrying the example identifier `29AABCT1332L1Z2`
      cited beside the pattern: the GSTIN reported is the whole labelled
      text, not the fifteen-character identifier alone. */
  lemma SampleGstinKeepsLabel()
    ensures ExtractCustomFields("GSTIN: 29AABCT1332L1Z2").gstin == Some("GSTIN: 29AABCT1332L1Z2")
  {
    var t := "GSTIN: 29AABCT1332L1Z2";
    assert LabelAt(t, 0, Gstin.Label);
    assert SepEnd(t, 7) == 7;
    assert SepEnd(t, 5) == 7;
    assert AllAlnum(t, 7, 22);
    assert Gstin.MatchAt(t, 0) == Some(Gstin.Span(0, 22));
    assert Gstin.Search(t) == Some(Gstin.Span(0, 22));
    assert t[0..22] == t;
  }

  /** The example `HSN Code: 12345678` given beside the HSN pattern yields
      its eight digits. */
  lemma SampleHsnCode()
    ensures ExtractCustomFields("HSN Code: 12345678").hsn == Some("12345678")
  {
    var t := "HSN Code: 12345678";
    assert t[10..18] == "12345678";
    SampleHsnCodeMatch();
    var m := Hsn.Match(0, Hsn.WithCode(4), 10, 8);
    Hsn.SearchFindsLeftmost(t, m);
    Hsn.MatchRefutesNoMatch(t, m);
    HsnIsEarliestMatch(t, 0);
  }

  /** The `CODE` alternative matches that text at its start: `CODE` at 4
      and all eight digits from 10. */
  lemma SampleHsnCodeMatch()
    ensures Hsn.MatchAt("HSN Code: 12345678", 0) == Some(Hsn.Match(0, Hsn.WithCode(4), 10, 8))
  {
    var t := "HSN Code: 12345678";
    assert LabelAt(t, 0, Hsn.Label);
    assert SepEnd(t, 3) == 4 by {
      assert SepEnd(t, 4) == 4;
    }
    assert LabelAt(t, 4, Hsn.CodeWord);
    assert SepEnd(t, 8) == 10 by {
      assert !IsSep(t[10]);
      assert SepEnd(t, 10) == 10;
      assert SepEnd(t, 9) == 10;
    }
    assert DigitRun(t, 10, 8) == 8 by {
      assert AllDigits(t, 10, 18);
      DigitRunUnique(t, 10, 8, 8);
    }
    assert Hsn.CodeAltAt(t, 0) == Some(Hsn.Match(0, Hsn.WithCode(4), 10, 8));
  }

  /** The example `HSN: 1234`, which has no `CODE`, is found by the plain
      alternative. */
  lemma SamplePlainHsn()
    ensures ExtractCustomFields("HSN: 1234").hsn == Some("1234")
  {
    var t := "HSN: 1234";
    assert t[5..9] == "1234";
    SamplePlainHsnMatch();
    var m := Hsn.Match(0, Hsn.Plain, 5, 4);
    Hsn.SearchFindsLeftmost(t, m);
    Hsn.MatchRefutesNoMatch(t, m);
    HsnIsEarliestMatch(t, 0);
  }

  /** The `CODE` alternative fails on that text, since a digit follows the
      separators, and the plain alternative takes its four digits. */
  lemma SamplePlainHsnMatch()
    ensures Hsn.MatchAt("HSN: 1234", 0) == Some(Hsn.Match(0, Hsn.Plain, 5, 4))
  {
    var t := "HSN: 1234";
    assert LabelAt(t, 0, Hsn.Label);
    assert SepEnd(t, 3) == 5 by {
      assert !IsSep(t[5]);
      assert SepEnd(t, 5) == 5;
      assert SepEnd(t, 4) == 5;
    }
    assert !LabelAt(t, 5, Hsn.CodeWord) by {
      assert Lower(t[5]) != Lower(Hsn.CodeWord[0]);
    }
    assert Hsn.CodeAltAt(t, 0) == None;
    assert DigitRun(t, 5, 8) == 4 by {
      assert AllDigits(t, 5, 9);
      DigitRunUnique(t, 5, 8, 4);
    }
    assert Hsn.PlainAltAt(t, 0) == Some(Hsn.Match(0, Hsn.Plain, 5, 4));
  }

  /** A labelled code with more than eight digits yields its first eight. */
  lemma LongHsnCodeTruncated()
    ensures ExtractCustomFields("HSN Code: 1234567890").hsn == Some("12345678")
  {
    var t := "HSN Code: 1234567890";
    assert t[10..18] == "12345678";
    LongHsnCodeMatch();
    var m := Hsn.Match(0, Hsn.WithCode(4), 10, 8);
    Hsn.SearchFindsLeftmost(t, m);
    Hsn.MatchRefutesNoMatch(t, m);
    HsnIsEarliestMatch(t, 0);
  }

  /** The `CODE` alternative matches that text at its start, taking eight
      of its ten digits. */
  lemma LongHsnCodeMatch()
    ensures Hsn.MatchAt("HSN Code: 1234567890", 0) == Some(Hsn.Match(0, Hsn.WithCode(4), 10, 8))
  {
    var t := "HSN Code: 1234567890";
    assert LabelAt(t, 0, Hsn.Label);
    assert SepEnd(t, 3) == 4 by {
      assert SepEnd(t, 4) == 4;
    }
    assert LabelAt(t, 4, Hsn.CodeWord);
    assert SepEnd(t, 8) == 10 by {
      assert !IsSep(t[10]);
      assert SepEnd(t, 10) == 10;
      assert SepEnd(t, 9) == 10;
    }
    assert DigitRun(t, 10, 8) == 8 by {
      assert AllDigits(t, 10, 18);
      DigitRunUnique(t, 10, 8, 8);
    }
    assert Hsn.CodeAltAt(t, 0) == Some(Hsn.Match(0, Hsn.WithCode(4), 10, 8));
  }
}
