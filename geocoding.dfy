/**
 * The formatting half of the geocoding service's `convert_lat_long_to_city`:
 * turning the reverse-geocoder's reply into a "city, state, country" line.
 * The geocoder itself (a network call) is an input: `Option<Location>`.
 */
module Geocoding {
  import opened Wrappers

  /** A reverse-geocoder reply; `address` is None when the raw reply has no
      'address' entry, otherwise the address dictionary. */
  datatype Location = Location(address: Option<map<string, string>>)

  /** The characters removed by Python's `str.strip(', ')`: any of ',' and ' '. */
  predicate IsStripChar(c: char) {
    c == ',' || c == ' '
  }

  /** Every character of `s` is removed by stripping. */
  predicate AllStripChars(s: string) {
    forall i :: 0 <= i < |s| ==> IsStripChar(s[i])
  }

  /** `s` does not start or end with a strip character. */
  predicate CleanEnds(s: string) {
    s == [] || (!IsStripChar(s[0]) && !IsStripChar(s[|s| - 1]))
  }

  /** Removes the longest prefix made of strip characters. */
  function LStrip(s: string): (r: string)
    ensures |r| <= |s| && r == s[|s| - |r|..]
    ensures AllStripChars(s[..|s| - |r|])
    ensures r == [] || !IsStripChar(r[0])
  {
    if |s| > 0 && IsStripChar(s[0]) then
      var r := LStrip(s[1..]);
      assert s[..|s| - |r|] == [s[0]] + s[1..][..|s| - 1 - |r|];
      r
    else
      s
  }

  /** Removes the longest suffix made of strip characters. */
  function RStrip(s: string): (r: string)
    ensures |r| <= |s| && r == s[..|r|]
    ensures AllStripChars(s[|r|..])
    ensures r == [] || !IsStripChar(r[|r| - 1])
  {
    if |s| > 0 && IsStripChar(s[|s| - 1]) then
      var r := RStrip(s[..|s| - 1]);
      assert s[|r|..] == s[..|s| - 1][|r|..] + [s[|s| - 1]];
      r
    else
      s
  }

  /** Python's `s.strip(', ')`. */
  function Strip(s: string): (r: string)
    ensures |r| <= |s|
    ensures CleanEnds(r)
  {
    RStrip(LStrip(s))
  }

  /** The stripped string is the slice `s[i..j]` of the input, and everything
      cut off on either side is a strip character. */
  lemma StripIsTrimmedSlice(s: string) returns (i: nat, j: nat)
    ensures i <= j <= |s| && Strip(s) == s[i..j]
    ensures AllStripChars(s[..i]) && AllStripChars(s[j..])
  {
    var l := LStrip(s);
    i := |s| - |l|;
    var r := RStrip(l);
    j := i + |r|;
    assert l == s[i..];
    assert r == s[i..j];
    assert l[|r|..] == s[j..];
  }

  /** A string without strip characters at its ends is left as it is. */
  lemma StripClean(s: string)
    requires CleanEnds(s)
    ensures Strip(s) == s
  {
  }

  /** Stripping is idempotent. */
  lemma StripIdempotent(s: string)
    ensures Strip(Strip(s)) == Strip(s)
  {
  }

  /** Stripping yields "" exactly when every character is a strip character. */
  lemma StripEmptyIff(s: string)
    ensures Strip(s) == [] <==> AllStripChars(s)
  {
  }

  /** A prefix of strip characters makes no difference to stripping. */
  lemma LStripPrefix(p: string, s: string)
    requires AllStripChars(p)
    ensures LStrip(p + s) == LStrip(s)
    decreases |p|
  {
    if p != [] {
      assert (p + s)[1..] == p[1..] + s;
      LStripPrefix(p[1..], s);
    } else {
      assert p + s == s;
    }
  }

  /** A suffix of strip characters makes no difference to stripping. */
  lemma RStripSuffix(s: string, p: string)
    requires AllStripChars(p)
    ensures RStrip(s + p) == RStrip(s)
    decreases |p|
  {
    if p != [] {
      assert (s + p)[..|s + p| - 1] == s + p[..|p| - 1];
      RStripSuffix(s, p[..|p| - 1]);
    } else {
      assert s + p == s;
    }
  }

  /** Python's `address.get(key, '')`. */
  function Get(address: map<string, string>, key: string): string {
    if key in address then address[key] else ""
  }

  /** The first non-empty string of `candidates`, or "" if there is none:
      a reference reading of a Python `a or b or c` chain over strings. */
  function FirstNonEmpty(candidates: seq<string>): (r: string)
    ensures r == "" || r in candidates
  {
    if candidates == [] then ""
    else if candidates[0] != "" then candidates[0]
    else FirstNonEmpty(candidates[1..])
  }

  /** The city falls back from 'city' to 'town' to 'village'. */
  function CityOf(address: map<string, string>): string {
    var city := Get(address, "city");
    if city != "" then city
    else
      var town := Get(address, "town");
      if town != "" then town else Get(address, "village")
  }

  /** The city is the first non-empty value among 'city', 'town' and
      'village', a missing key counting as "". */
  lemma CityFallback(address: map<string, string>)
    ensures CityOf(address) == FirstNonEmpty([Get(address, "city"), Get(address, "town"), Get(address, "village")])
  {
    var cs := [Get(address, "city"), Get(address, "town"), Get(address, "village")];
    assert cs[1..] == [cs[1], cs[2]];
    assert cs[1..][1..] == [cs[2]];
    assert FirstNonEmpty([cs[2]]) == cs[2] by {
      assert [cs[2]][1..] == [];
    }
  }

  /** The comma-separated line before stripping. */
  function Joined(address: map<string, string>): string {
    CityOf(address) + ", " + Get(address, "state") + ", " + Get(address, "country")
  }

  /** The service's reply: the stripped "city, state, country" line when the
      reply carries an address, "Unknown" otherwise. */
  function ConvertLatLongToCity(location: Option<Location>): (r: string)
    ensures location.None? || location.value.address.None? ==> r == "Unknown"
    ensures location.Some? && location.value.address.Some? ==> CleanEnds(r) && |r| <= |Joined(location.value.address.value)|
  {
    if location.Some? && location.value.address.Some? then
      Strip(Joined(location.value.address.value))
    else
      "Unknown"
  }

  /** With an address, the reply is exactly the joined line with its
      leading and trailing strip characters removed, nothing else. */
  lemma AddressReplyIsTrimmedJoin(address: map<string, string>) returns (i: nat, j: nat)
    ensures i <= j <= |Joined(address)|
    ensures ConvertLatLongToCity(Some(Location(Some(address)))) == Joined(address)[i..j]
    ensures AllStripChars(Joined(address)[..i]) && AllStripChars(Joined(address)[j..])
  {
    i, j := StripIsTrimmedSlice(Joined(address));
  }

  /** An address whose city, state and country are all empty gives "". */
  lemma EmptyPartsGiveEmpty(address: map<string, string>)
    requires CityOf(address) == "" && Get(address, "state") == "" && Get(address, "country") == ""
    ensures ConvertLatLongToCity(Some(Location(Some(address)))) == ""
  {
    assert Joined(address) == "" + ", " + "" + ", " + "";
    assert "" + ", " + "" + ", " + "" == ", , ";
    assert AllStripChars(", , ");
    StripEmptyIff(", , ");
  }

  /** Three non-empty parts with clean ends are joined verbatim. */
  lemma CleanPartsJoinedVerbatim(address: map<string, string>)
    requires CityOf(address) != "" && CleanEnds(CityOf(address))
    requires Get(address, "state") != "" && CleanEnds(Get(address, "state"))
    requires Get(address, "country") != "" && CleanEnds(Get(address, "country"))
    ensures ConvertLatLongToCity(Some(Location(Some(address)))) == Joined(address)
  {
    var s := Joined(address);
    assert s[0] == CityOf(address)[0];
    assert s[|s| - 1] == Get(address, "country")[|Get(address, "country")| - 1];
    StripClean(s);
  }

  /** With no city and no state the reply is the stripped country: the two
      leading separators disappear. */
  lemma OnlyCountry(address: map<string, string>)
    requires CityOf(address) == "" && Get(address, "state") == ""
    ensures ConvertLatLongToCity(Some(Location(Some(address)))) == Strip(Get(address, "country"))
  {
    var c := Get(address, "country");
    var sep := ", , ";
    assert Joined(address) == "" + ", " + "" + ", " + c;
    assert "" + ", " + "" + ", " + c == sep + c;
    assert AllStripChars(sep);
    LStripPrefix(sep, c);
  }

  /** Appending strip characters after a string that has a non-strip
      character keeps them after its left-stripped form; after a string of
      strip characters only, everything is stripped. */
  lemma LStripAppend(s: string, p: string)
    requires AllStripChars(p)
    ensures LStrip(s + p) == if LStrip(s) != [] then LStrip(s) + p else []
    decreases |s|
  {
    if s == [] {
      assert s + p == p;
    } else if IsStripChar(s[0]) {
      assert (s + p)[1..] == s[1..] + p;
      LStripAppend(s[1..], p);
    } else {
      assert (s + p)[0] == s[0];
    }
  }

  /** A suffix of strip characters makes no difference to stripping. */
  lemma StripSuffix(s: string, p: string)
    requires AllStripChars(p)
    ensures Strip(s + p) == Strip(s)
  {
    LStripAppend(s, p);
    if LStrip(s) != [] {
      RStripSuffix(LStrip(s), p);
    }
  }

  /** With no state and no country the reply is the stripped city: the two
      trailing separators disappear. */
  lemma OnlyCity(address: map<string, string>)
    requires Get(address, "state") == "" && Get(address, "country") == ""
    ensures ConvertLatLongToCity(Some(Location(Some(address)))) == Strip(CityOf(address))
  {
    var c := CityOf(address);
    var sep := ", , ";
    assert Joined(address) == c + ", " + "" + ", " + "";
    assert ", " + "" + ", " + "" == sep;
    assert c + ", " + "" + ", " + "" == c + sep;
    assert AllStripChars(sep);
    StripSuffix(c, sep);
  }

  /** Only the ends are stripped: a missing state in the middle leaves an
      empty slot, so Paris with no state in France reads "Paris, , France". */
  lemma MissingStateKeepsEmptySlot()
    ensures ConvertLatLongToCity(Some(Location(Some(map["city" := "Paris", "country" := "France"])))) == "Paris, , France"
  {
    var a := map["city" := "Paris", "country" := "France"];
    assert Joined(a) == "Paris, , France";
    StripClean("Paris, , France");
  }
}
