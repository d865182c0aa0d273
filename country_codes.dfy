/** The static table of country names and their two-letter codes, and its lookup. */
module CountryCodes {
  import opened Wrappers

  /** The 27 country names offered by the country selection and their codes (Greece is "EL"). */
  const CountryAcronyms: map<string, string> := map[
    "Belgium" := "BE", "Bulgaria" := "BG", "Czechia" := "CZ", "Denmark" := "DK", "Germany" := "DE",
    "Estonia" := "EE", "Ireland" := "IE", "Greece" := "EL", "Spain" := "ES", "France" := "FR",
    "Croatia" := "HR", "Italy" := "IT", "Cyprus" := "CY", "Latvia" := "LV", "Lithuania" := "LT",
    "Luxembourg" := "LU", "Hungary" := "HU", "Malta" := "MT", "Netherlands" := "NL", "Austria" := "AT",
    "Poland" := "PL", "Portugal" := "PT", "Romania" := "RO", "Slovenia" := "SI", "Slovakia" := "SK",
    "Finland" := "FI", "Sweden" := "SE"
  ]

  /** A code is two upper-case Latin letters. */
  predicate IsTwoLetterCode(code: string) {
    |code| == 2 && forall i :: 0 <= i < |code| ==> 'A' <= code[i] <= 'Z'
  }

  /** Every code in the table is two upper-case letters. */
  lemma AllCodesTwoLetters()
    ensures forall name :: name in CountryAcronyms ==> IsTwoLetterCode(CountryAcronyms[name])
  {
  }

  /** The lookup of a country name: its code when the name is listed, nothing otherwise. */
  function CountryToAcronym(countryName: string): (r: Option<string>)
    ensures r.Some? <==> countryName in CountryAcronyms
    ensures r.Some? ==> IsTwoLetterCode(r.value) && CountryAcronyms[countryName] == r.value
  {
    AllCodesTwoLetters();
    if countryName in CountryAcronyms then Some(CountryAcronyms[countryName]) else None
  }

  /** The lookup gives each listed country its code: Belgium to Denmark. */
  lemma CodesBelgiumToDenmark()
    ensures CountryToAcronym("Belgium") == Some("BE")
    ensures CountryToAcronym("Bulgaria") == Some("BG")
    ensures CountryToAcronym("Czechia") == Some("CZ")
    ensures CountryToAcronym("Denmark") == Some("DK")
  {
  }

  /** Germany to Spain; Greece is "EL", not the ISO code "GR". */
  lemma CodesGermanyToSpain()
    ensures CountryToAcronym("Germany") == Some("DE")
    ensures CountryToAcronym("Estonia") == Some("EE")
    ensures CountryToAcronym("Ireland") == Some("IE")
    ensures CountryToAcronym("Greece") == Some("EL")
    ensures CountryToAcronym("Spain") == Some("ES")
  {
  }

  /** France to Malta. */
  lemma CodesFranceToMalta()
    ensures CountryToAcronym("France") == Some("FR")
    ensures CountryToAcronym("Croatia") == Some("HR")
    ensures CountryToAcronym("Italy") == Some("IT")
    ensures CountryToAcronym("Cyprus") == Some("CY")
    ensures CountryToAcronym("Latvia") == Some("LV")
    ensures CountryToAcronym("Lithuania") == Some("LT")
    ensures CountryToAcronym("Luxembourg") == Some("LU")
    ensures CountryToAcronym("Hungary") == Some("HU")
    ensures CountryToAcronym("Malta") == Some("MT")
  {
  }

  /** Netherlands to Sweden. */
  lemma CodesNetherlandsToSweden()
    ensures CountryToAcronym("Netherlands") == Some("NL")
    ensures CountryToAcronym("Austria") == Some("AT")
    ensures CountryToAcronym("Poland") == Some("PL")
    ensures CountryToAcronym("Portugal") == Some("PT")
    ensures CountryToAcronym("Romania") == Some("RO")
    ensures CountryToAcronym("Slovenia") == Some("SI")
    ensures CountryToAcronym("Slovakia") == Some("SK")
    ensures CountryToAcronym("Finland") == Some("FI")
    ensures CountryToAcronym("Sweden") == Some("SE")
  {
  }

  /** Names outside the table, including other spellings of listed countries, give nothing. */
  lemma UnlistedNames()
    ensures CountryToAcronym("Norway") == None
    ensures CountryToAcronym("Czech Republic") == None
    ensures CountryToAcronym("germany") == None
  {
  }

  /** No two listed countries share a code. */
  lemma CodesDistinct()
    ensures forall a, b :: a in CountryAcronyms && b in CountryAcronyms && a != b ==>
      CountryAcronyms[a] != CountryAcronyms[b]
  {
  }
}
