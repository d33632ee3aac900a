/**
  The character filter of scraper.py's `clean_price`: every character that
  is not a digit or a full stop is deleted before the text is parsed as a
  number. The parse itself is left out.
*/
module PriceText {
  import opened Sequences

  /** `[\d.]`, for ASCII digits. */
  predicate IsPriceChar(ch: char) {
    '0' <= ch <= '9' || ch == '.'
  }

  predicate AllPriceChars(s: string) {
    forall i :: 0 <= i < |s| ==> IsPriceChar(s[i])
  }

  /** `re.sub(r"[^\d.]", "", text)` */
  function PriceChars(text: string): (r: string)
    ensures AllPriceChars(r)
    ensures |r| <= |text|
  {
    if text == [] then []
    else
      var rest := PriceChars(text[..|text| - 1]);
      var ch := text[|text| - 1];
      if IsPriceChar(ch) then rest + [ch] else rest
  }

  /** One character is kept when it is a digit or a full stop and deleted
      otherwise; with `PriceCharsConcat` this fixes the filter on every text. */
  lemma PriceCharsChar(ch: char)
    ensures PriceChars([ch]) == if IsPriceChar(ch) then [ch] else []
  {
    assert [ch][..0] == [];
  }

  /** The result holds a character exactly when the text holds it and it is
      a digit or a full stop. */
  lemma {:induction false} PriceCharsMembers(text: string)
    ensures forall ch :: ch in PriceChars(text) <==> ch in text && IsPriceChar(ch)
  {
    if text != [] {
      var t', last := text[..|text| - 1], text[|text| - 1];
      PriceCharsMembers(t');
      assert text == t' + [last];
    }
  }

  /** Filtering a concatenation filters each part. */
  lemma {:induction false} PriceCharsConcat(a: string, b: string)
    ensures PriceChars(a + b) == PriceChars(a) + PriceChars(b)
  {
    if b == [] {
      assert a + b == a;
    } else {
      var b', ch := b[..|b| - 1], b[|b| - 1];
      var kept := if IsPriceChar(ch) then [ch] else [];
      ConcatDropLast(a, b);
      assert (a + b)[|a + b| - 1] == ch;
      assert PriceChars(a + b) == PriceChars(a + b') + kept;
      PriceCharsConcat(a, b');
      assert PriceChars(b) == PriceChars(b') + kept;
    }
  }

  /** Text made only of digits and full stops passes unchanged, and only such text does. */
  lemma {:induction false} PriceCharsKeeps(text: string)
    ensures PriceChars(text) == text <==> AllPriceChars(text)
  {
    if text != [] {
      var t' := text[..|text| - 1];
      PriceCharsKeeps(t');
      if !IsPriceChar(text[|text| - 1]) {
        assert |PriceChars(text)| < |text| by {
          assert PriceChars(text) == PriceChars(t');
        }
      }
    }
  }

  /** Filtering twice is filtering once. */
  lemma PriceCharsIdempotent(text: string)
    ensures PriceChars(PriceChars(text)) == PriceChars(text)
  {
    PriceCharsKeeps(PriceChars(text));
  }

  lemma RupeeSign()
    ensures PriceChars("₹ 1,") == "1"
  {
    assert "₹ 1," == "₹ " + "1,";
    PriceCharsConcat("₹ ", "1,");
    assert PriceChars("₹ ") == "";
    assert PriceChars("1,") == "1";
  }

  lemma Lakh()
    ensures PriceChars("23,") == "23"
  {
  }

  /** A rupee price as the sites print it loses its symbol, spaces and
      thousands separators. */
  lemma RupeeExample()
    ensures PriceChars("₹ 1,23,456.70") == "123456.70"
  {
    var a, b, c := "₹ 1,", "23,", "456.70";
    assert "₹ 1,23,456.70" == (a + b) + c;
    PriceCharsConcat(a + b, c);
    PriceCharsConcat(a, b);
    RupeeSign();
    Lakh();
    PriceCharsKeeps(c);
    assert "1" + "23" + c == "123456.70";
  }
}
