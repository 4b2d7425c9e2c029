/** Country display names: the fixed ISO 3166-1 alpha-2 to French-name table
    and the lookup `country_name`. */
module Countries {
  import opened Text
  import opened Cells

  /** The display name given to a country cell that is not a string. */
  const UnknownCountry: string := "Inconnu"

  /** `ISO2_TO_COUNTRY_FR` */
  const Iso2ToCountryFr: map<string, string> := map[
    "AL" := "Albanie",
    "AT" := "Autriche",
    "BA" := "Bosnie-Herzégovine",
    "BE" := "Belgique",
    "BG" := "Bulgarie",
    "CH" := "Suisse",
    "CZ" := "Tchéquie",
    "DE" := "Allemagne",
    "DK" := "Danemark",
    "EE" := "Estonie",
    "ES" := "Espagne",
    "FI" := "Finlande",
    "FR" := "France",
    "GB" := "Royaume-Uni",
    "GR" := "Grèce",
    "HR" := "Croatie",
    "HU" := "Hongrie",
    "IE" := "Irlande",
    "IS" := "Islande",
    "IT" := "Italie",
    "LT" := "Lituanie",
    "LU" := "Luxembourg",
    "LV" := "Lettonie",
    "MD" := "Moldavie",
    "ME" := "Monténégro",
    "MK" := "Macédoine du Nord",
    "MT" := "Malte",
    "NL" := "Pays-Bas",
    "NO" := "Norvège",
    "PL" := "Pologne",
    "PT" := "Portugal",
    "RO" := "Roumanie",
    "RS" := "Serbie",
    "SE" := "Suède",
    "SI" := "Slovénie",
    "SK" := "Slovaquie",
    "UA" := "Ukraine"
  ]

  /** The code a country string is looked up under: `code.strip().upper()`. */
  function CanonicalCode(code: string): (c: string)
    ensures c == [] || (!IsSpace(c[0]) && !IsSpace(c[|c| - 1]))
    ensures forall i :: 0 <= i < |c| ==> !('a' <= c[i] <= 'z')
  {
    Upper(Strip(code))
  }

  /** `country_name`: "Inconnu" for a non-string cell; otherwise the table's
      name for the canonical code, or the canonical code itself when the
      table has no entry for it. "Inconnu" is never the name of a string
      cell: no table name is "Inconnu", and a canonical code has no
      lower-case letter. */
  function CountryName(v: Value): (r: string)
    ensures r == UnknownCountry <==> !v.Str?
  {
    if !v.Str? then UnknownCountry
    else
      var c := CanonicalCode(v.s);
      TableNamesKnown();
      assert c != UnknownCountry by {
        if |c| > 1 {
          assert UnknownCountry[1] == 'n';
        }
      }
      if c in Iso2ToCountryFr then Iso2ToCountryFr[c] else c
  }

  /** No name in the table is the fallback name. */
  lemma TableNamesKnown()
    ensures forall k :: k in Iso2ToCountryFr ==> Iso2ToCountryFr[k] != UnknownCountry
  {
  }

  /** Every cell gets a name: "Inconnu" for a non-string, the table's entry
      for its own canonical code when there is one, and otherwise that
      canonical code, which passes through unchanged. */
  lemma CountryNameCases(v: Value)
    ensures !v.Str? ==> CountryName(v) == UnknownCountry
    ensures v.Str? && CanonicalCode(v.s) in Iso2ToCountryFr ==>
              CountryName(v) == Iso2ToCountryFr[CanonicalCode(v.s)]
    ensures v.Str? && CanonicalCode(v.s) !in Iso2ToCountryFr ==>
              CountryName(v) == CanonicalCode(v.s)
  {
  }

  /** The lookup ignores letter case. */
  lemma CountryNameIgnoresCase(s: string, t: string)
    requires Upper(s) == Upper(t)
    ensures CountryName(Str(s)) == CountryName(Str(t))
  {
    UpperStripAgree(s, t);
  }

  /** The lookup ignores surrounding whitespace. */
  lemma CountryNameIgnoresPadding(before: string, s: string, after: string)
    requires AllSpace(before) && AllSpace(after)
    ensures CountryName(Str(before + s + after)) == CountryName(Str(s))
  {
    StripIgnoresPadding(before, s, after);
  }

  /** Canonicalising a code twice is canonicalising it once, so an unmapped
      code that has passed through is looked up to itself again. */
  lemma CanonicalCodeIdempotent(code: string)
    ensures CanonicalCode(CanonicalCode(code)) == CanonicalCode(code)
  {
    UpperStripFixed(CanonicalCode(code));
  }

  /** A code of two upper-case ASCII letters. */
  predicate UpperPair(k: string) {
    |k| == 2 && 'A' <= k[0] <= 'Z' && 'A' <= k[1] <= 'Z'
  }

  /** Every key of the table is two upper-case ASCII letters. */
  lemma TableKeysUpper()
    ensures forall k :: k in Iso2ToCountryFr ==> UpperPair(k)
  {
  }

  /** No key of the table starts with `Z`. */
  lemma TableKeysBeforeZ()
    ensures forall k :: k in Iso2ToCountryFr ==> |k| > 0 && k[0] != 'Z'
  {
  }

  /** Two upper-case letters are their own canonical code. */
  lemma UpperPairCanonical(k: string)
    requires UpperPair(k)
    ensures CanonicalCode(k) == k
  {
    UpperStripFixed(k);
  }

  /** Every key of the table is its own canonical code, so each entry is
      reached from its code written in any case with any padding. */
  lemma TableKeysCanonical(k: string)
    requires k in Iso2ToCountryFr
    ensures |k| == 2 && CanonicalCode(k) == k
    ensures CountryName(Str(k)) == Iso2ToCountryFr[k]
  {
    TableKeysUpper();
    UpperPairCanonical(k);
  }

  /** The entries the examples below look up. */
  lemma TableEntries()
    ensures "FR" in Iso2ToCountryFr && Iso2ToCountryFr["FR"] == "France"
    ensures "DE" in Iso2ToCountryFr && Iso2ToCountryFr["DE"] == "Allemagne"
  {
  }

  /** A mapped code, in lower case. */
  lemma ExampleFrance()
    ensures CountryName(Str("fr")) == "France"
  {
    assert CanonicalCode("fr") == "FR" by {
      StripUnique("fr", 0, 2);
      assert "fr"[0..2] == "fr";
      assert Upper("fr") == "FR";
    }
    TableEntries();
  }

  /** A mapped code with surrounding whitespace. */
  lemma ExampleGermany()
    ensures CountryName(Str(" de\t")) == "Allemagne"
  {
    assert CanonicalCode(" de\t") == "DE" by {
      StripUnique(" de\t", 1, 3);
      assert " de\t"[1..3] == "de";
      assert Upper("de") == "DE";
    }
    TableEntries();
  }

  /** An unmapped code passes through upper-cased. */
  lemma ExampleUnmapped()
    ensures CountryName(Str("zz")) == "ZZ"
  {
    StripUnique("zz", 0, 2);
    assert "zz"[0..2] == "zz";
    assert Upper("zz") == "ZZ";
    TableKeysBeforeZ();
    assert "ZZ" !in Iso2ToCountryFr;
  }

  /** Cells that are not strings get the fallback name. */
  lemma ExampleNotString()
    ensures CountryName(Na) == "Inconnu" && CountryName(Num(33.0)) == "Inconnu"
  {
  }
}
