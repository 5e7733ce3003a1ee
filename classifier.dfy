/** The network-type heuristic of the IP lookup window (IPQueryTool.classify_ip):
    the ISP, organization and ASN-organization strings of a lookup result are
    lower-cased, joined with spaces, and searched for keywords from four fixed
    lists taken in a fixed priority order. */
module Classifier {
  import opened AsciiText

  /** The decoded JSON object of one lookup; every value is kept as its text. */
  type GeoRecord = map<string, string>

  /** The five network types, in the order the classifier tries them. */
  datatype NetworkType = DataCenter | MobileNetwork | Educational | Residential | Unknown

  /** The text the window shows for each network type. */
  function Label(t: NetworkType): string
  {
    match t
    case DataCenter => "数据中心 / 云服务"
    case MobileNetwork => "移动网络"
    case Educational => "教育/科研网络"
    case Residential => "家宽/住宅宽带"
    case Unknown => "未知/通用网络"
  }

  const CloudKeywords: seq<string> :=
    ["alibaba", "amazon", "aws", "google", "azure", "microsoft",
     "digitalocean", "ovh", "linode", "vultr", "hetzner", "gcore", "akamai"]

  const MobileKeywords: seq<string> :=
    ["mobile", "wireless", "lte", "4g", "5g", "cmcc", "docomo", "vodafone"]

  const ResidentialKeywords: seq<string> :=
    ["telecom", "telecomunicaciones", "broadband", "cable",
     "comcast", "spectrum", "unicom", "电信", "联通", "移动"]

  const EducationalKeywords: seq<string> :=
    ["university", "college", "school", "教育网", "campus"]

  /** The keyword list that selects each type; Unknown is what is left when none matches. */
  function Keywords(t: NetworkType): seq<string>
  {
    match t
    case DataCenter => CloudKeywords
    case MobileNetwork => MobileKeywords
    case Educational => EducationalKeywords
    case Residential => ResidentialKeywords
    case Unknown => []
  }

  /** Position of each type in the priority chain; a lower rank is tried first. */
  function Rank(t: NetworkType): nat
  {
    match t
    case DataCenter => 0
    case MobileNetwork => 1
    case Educational => 2
    case Residential => 3
    case Unknown => 4
  }

  /** `data.get(key) or ""`: a missing key and an empty value both give "". */
  function FieldText(data: GeoRecord, key: string): (r: string)
    ensures r == "" <==> key !in data || data[key] == ""
    ensures r != "" ==> r == data[key]
  {
    if key in data then data[key] else ""
  }

  /** The three fields the classifier reads. */
  const ClassifiedKeys: seq<string> := ["isp", "organization", "asn_organization"]

  /** The lower-cased ISP, organization and ASN organization joined by single spaces. */
  function SearchText(data: GeoRecord): string
  {
    Lower(FieldText(data, "isp")) + " " + Lower(FieldText(data, "organization")) + " "
      + Lower(FieldText(data, "asn_organization"))
  }

  /** `any(k in text for k in keywords)`. */
  predicate MatchesAny(text: string, keywords: seq<string>)
  {
    exists k | k in keywords :: Contains(text, k)
  }

  /** IPQueryTool.classify_ip: the first list in the priority chain with a keyword in
      the search text decides; with no match anywhere the type is Unknown. */
  function Classify(data: GeoRecord): (r: NetworkType)
    ensures r == Unknown || MatchesAny(SearchText(data), Keywords(r))
  {
    var text := SearchText(data);
    if MatchesAny(text, CloudKeywords) then DataCenter
    else if MatchesAny(text, MobileKeywords) then MobileNetwork
    else if MatchesAny(text, EducationalKeywords) then Educational
    else if MatchesAny(text, ResidentialKeywords) then Residential
    else Unknown
  }

  /** The five labels are pairwise different, so the label shown names exactly one type. */
  lemma LabelInjective(t: NetworkType, u: NetworkType)
    ensures Label(t) == Label(u) <==> t == u
  {
  }

  /** The classifier's answer is the type of highest priority whose list has a keyword
      in the search text, and Unknown exactly when no list has one. */
  lemma ClassifyIsFirstMatch(data: GeoRecord, t: NetworkType)
    ensures Classify(data) == t <==>
      (t == Unknown || MatchesAny(SearchText(data), Keywords(t))) &&
      forall u :: Rank(u) < Rank(t) ==> !MatchesAny(SearchText(data), Keywords(u))
  {
    var text := SearchText(data);
    if Classify(data) == t {
      forall u | Rank(u) < Rank(t)
        ensures !MatchesAny(text, Keywords(u))
      {
        match u
        case DataCenter =>
        case MobileNetwork =>
        case Educational =>
        case Residential =>
        case Unknown =>
      }
    } else if (t == Unknown || MatchesAny(text, Keywords(t))) {
      var c := Classify(data);
      assert Rank(c) < Rank(t) && MatchesAny(text, Keywords(c));
    }
  }

  /** A cloud keyword anywhere wins, whatever the other lists match. */
  lemma CloudWins(data: GeoRecord)
    requires MatchesAny(SearchText(data), CloudKeywords)
    ensures Classify(data) == DataCenter
  {
  }

  /** Mobile is returned only when no cloud keyword occurs. */
  lemma MobileOnlyWithoutCloud(data: GeoRecord)
    ensures Classify(data) == MobileNetwork <==>
      !MatchesAny(SearchText(data), CloudKeywords) && MatchesAny(SearchText(data), MobileKeywords)
  {
  }

  /** Educational beats residential: a text with an educational keyword and no cloud or
      mobile keyword is educational even when a residential keyword occurs too
      (as in "Cabletown University"). */
  lemma EducationalBeatsResidential(data: GeoRecord)
    requires !MatchesAny(SearchText(data), CloudKeywords)
    requires !MatchesAny(SearchText(data), MobileKeywords)
    requires MatchesAny(SearchText(data), EducationalKeywords)
    ensures Classify(data) == Educational
  {
  }

  /** Residential only when none of the first three lists matches. */
  lemma ResidentialOnlyAsLastList(data: GeoRecord)
    ensures Classify(data) == Residential ==>
      !MatchesAny(SearchText(data), CloudKeywords) &&
      !MatchesAny(SearchText(data), MobileKeywords) &&
      !MatchesAny(SearchText(data), EducationalKeywords) &&
      MatchesAny(SearchText(data), ResidentialKeywords)
  {
  }

  /** Unknown exactly when no keyword of any list occurs. */
  lemma UnknownIffNoKeyword(data: GeoRecord)
    ensures Classify(data) == Unknown <==>
      forall t :: !MatchesAny(SearchText(data), Keywords(t))
  {
    if Classify(data) == Unknown {
      forall t ensures !MatchesAny(SearchText(data), Keywords(t)) {
        match t
        case DataCenter =>
        case MobileNetwork =>
        case Educational =>
        case Residential =>
        case Unknown =>
      }
    } else {
      var c := Classify(data);
      assert MatchesAny(SearchText(data), Keywords(c));
    }
  }

  /** A keyword is non-empty and holds no space and no upper-case ASCII letter, so it
      can only be found inside one lower-cased field. */
  predicate WellFormedKeyword(k: string)
  {
    k != [] && ' ' !in k && forall c | c in k :: !('A' <= c <= 'Z')
  }

  lemma KeywordsWellFormed(t: NetworkType)
    ensures forall k :: k in Keywords(t) ==> WellFormedKeyword(k)
  {
    match t
    case DataCenter => CloudKeywordsWellFormed();
    case MobileNetwork => MobileKeywordsWellFormed();
    case Educational => EducationalKeywordsWellFormed();
    case Residential => ResidentialKeywordsWellFormed();
    case Unknown =>
  }

  lemma CloudKeywordsWellFormed()
    ensures forall k | k in CloudKeywords :: WellFormedKeyword(k)
  {
  }

  lemma MobileKeywordsWellFormed()
    ensures forall k | k in MobileKeywords :: WellFormedKeyword(k)
  {
  }

  lemma EducationalKeywordsWellFormed()
    ensures forall k | k in EducationalKeywords :: WellFormedKeyword(k)
  {
  }

  lemma ResidentialKeywordsWellFormed()
    ensures forall k | k in ResidentialKeywords :: WellFormedKeyword(k)
  {
  }

  /** A keyword is its own lower-case form. */
  lemma KeywordIsLowerCase(k: string)
    requires WellFormedKeyword(k)
    ensures Lower(k) == k
  {
    forall i | 0 <= i < |k|
      ensures Lower(k)[i] == k[i]
    {
      assert k[i] in k;
    }
  }

  /** Matching is case-insensitive: a keyword occurs in the lower-cased field exactly
      when the field holds it in any mix of ASCII upper and lower case. */
  lemma {:induction false} KeywordFoundInAnyCase(v: string, k: string)
    requires WellFormedKeyword(k)
    ensures Contains(Lower(v), k) <==> ContainsIgnoringCase(v, k)
  {
    KeywordIsLowerCase(k);
    forall i | 0 <= i <= |v| - |k|
      ensures OccursAt(Lower(v), k, i) <==> OccursIgnoringCaseAt(v, k, i)
    {
      assert Lower(v)[i..i + |k|] == Lower(v[i..i + |k|]);
      LowerDecidesCase(v[i..i + |k|], k);
    }
    if Contains(Lower(v), k) {
      var i :| 0 <= i <= |v| - |k| && OccursAt(Lower(v), k, i);
      assert OccursIgnoringCaseAt(v, k, i);
    }
    if ContainsIgnoringCase(v, k) {
      var i :| 0 <= i <= |v| - |k| && OccursIgnoringCaseAt(v, k, i);
      assert OccursAt(Lower(v), k, i);
      assert Contains(Lower(v), k);
    }
  }

  /** The values the classifier looks at, each field with its `or ""` default. */
  function ClassifiedValues(data: GeoRecord): seq<string>
  {
    [FieldText(data, "isp"), FieldText(data, "organization"), FieldText(data, "asn_organization")]
  }

  /** Some lower-cased value in vs holds one of the keywords. */
  predicate SomeValueMatches(vs: seq<string>, keywords: seq<string>)
  {
    exists v | v in vs :: MatchesAny(Lower(v), keywords)
  }

  /** A keyword list matches the joined search text exactly when it matches one of the
      three fields on its own: since no keyword holds a space, no match straddles two
      fields. */
  lemma {:induction false} MatchesAnyFieldwise(data: GeoRecord, keywords: seq<string>)
    requires forall k :: k in keywords ==> ' ' !in k
    ensures MatchesAny(SearchText(data), keywords) <==>
      SomeValueMatches(ClassifiedValues(data), keywords)
  {
    var a := Lower(FieldText(data, "isp"));
    var b := Lower(FieldText(data, "organization"));
    var c := Lower(FieldText(data, "asn_organization"));
    var vs := ClassifiedValues(data);
    assert SearchText(data) == (a + [' '] + b) + [' '] + c;
    forall k | k in keywords
      ensures Contains(SearchText(data), k) <==> Contains(a, k) || Contains(b, k) || Contains(c, k)
    {
      ContainsAcrossSeparator(a + [' '] + b, ' ', c, k);
      ContainsAcrossSeparator(a, ' ', b, k);
    }
    if MatchesAny(SearchText(data), keywords) {
      var k :| k in keywords && Contains(SearchText(data), k);
      if Contains(a, k) {
        assert vs[0] in vs && MatchesAny(Lower(vs[0]), keywords);
      } else if Contains(b, k) {
        assert vs[1] in vs && MatchesAny(Lower(vs[1]), keywords);
      } else {
        assert vs[2] in vs && MatchesAny(Lower(vs[2]), keywords);
      }
    }
    if SomeValueMatches(vs, keywords) {
      var v :| v in vs && MatchesAny(Lower(v), keywords);
      var k :| k in keywords && Contains(Lower(v), k);
      assert Contains(SearchText(data), k);
    }
  }

  /** The label depends only on which values the three fields hold, not on which of the
      three fields holds which: swapping the ISP and the organization, say, changes
      nothing. */
  lemma {:induction false} ClassifyDependsOnValuesOnly(d: GeoRecord, e: GeoRecord)
    requires multiset(ClassifiedValues(d)) == multiset(ClassifiedValues(e))
    ensures Classify(d) == Classify(e)
  {
    forall t
      ensures MatchesAny(SearchText(d), Keywords(t)) <==> MatchesAny(SearchText(e), Keywords(t))
    {
      KeywordsWellFormed(t);
      MatchesAnyFieldwise(d, Keywords(t));
      MatchesAnyFieldwise(e, Keywords(t));
      SameValuesSameMatch(ClassifiedValues(d), ClassifiedValues(e), Keywords(t));
    }
    assert MatchesAny(SearchText(d), Keywords(DataCenter)) == MatchesAny(SearchText(e), Keywords(DataCenter));
    assert MatchesAny(SearchText(d), Keywords(MobileNetwork)) == MatchesAny(SearchText(e), Keywords(MobileNetwork));
    assert MatchesAny(SearchText(d), Keywords(Educational)) == MatchesAny(SearchText(e), Keywords(Educational));
    assert MatchesAny(SearchText(d), Keywords(Residential)) == MatchesAny(SearchText(e), Keywords(Residential));
  }

  lemma SameValuesSameMatch(vs: seq<string>, ws: seq<string>, keywords: seq<string>)
    requires multiset(vs) == multiset(ws)
    ensures SomeValueMatches(vs, keywords) <==> SomeValueMatches(ws, keywords)
  {
    if SomeValueMatches(vs, keywords) {
      var v :| v in vs && MatchesAny(Lower(v), keywords);
      assert v in multiset(ws);
    }
    if SomeValueMatches(ws, keywords) {
      var w :| w in ws && MatchesAny(Lower(w), keywords);
      assert w in multiset(vs);
    }
  }

  /** Matching ignores ASCII case: records whose three fields agree up to case get
      the same label. */
  lemma ClassifyIgnoresCase(d: GeoRecord, e: GeoRecord)
    requires forall key :: key in ClassifiedKeys ==> SameIgnoringCase(FieldText(d, key), FieldText(e, key))
    ensures Classify(d) == Classify(e)
  {
    forall key | key in ClassifiedKeys
      ensures Lower(FieldText(d, key)) == Lower(FieldText(e, key))
    {
      LowerDecidesCase(FieldText(d, key), FieldText(e, key));
    }
    assert SearchText(d) == SearchText(e);
  }

  /** An empty field counts as a missing one: setting any key to "" or removing it
      gives the same label. */
  lemma EmptyFieldIsAbsent(data: GeoRecord, key: string)
    ensures Classify(data[key := ""]) == Classify(data - {key})
  {
    assert SearchText(data[key := ""]) == SearchText(data - {key});
  }

  /** With none of the three fields set (or all of them empty) the label is Unknown. */
  lemma {:induction false} NoClassifiedFieldsIsUnknown(data: GeoRecord)
    requires forall key :: key in ClassifiedKeys ==> FieldText(data, key) == ""
    ensures Classify(data) == Unknown
  {
    var text := SearchText(data);
    assert text == "  ";
    forall t
      ensures !MatchesAny(text, Keywords(t))
    {
      KeywordsWellFormed(t);
      forall k | k in Keywords(t)
        ensures !Contains(text, k)
      {
        NotContainedInSeparators(text, ' ', k);
      }
    }
    UnknownIffNoKeyword(data);
  }

  /** A worked case: an ISP named "Amazon" is a data centre; the capital letter does
      not hide the keyword "amazon" because the text is lower-cased first. */
  lemma AmazonIsDataCenter(data: GeoRecord)
    requires "isp" in data && data["isp"] == "Amazon"
    ensures Classify(data) == DataCenter
  {
    var text := SearchText(data);
    var isp := Lower("Amazon");
    assert isp[0] == LowerChar('A') == 'a';
    assert isp[1] == 'm' && isp[2] == 'a' && isp[3] == 'z' && isp[4] == 'o' && isp[5] == 'n';
    assert isp == "amazon";
    assert text[0..6] == isp;
    assert OccursAt(text, "amazon", 0);
    assert Contains(text, "amazon");
    assert CloudKeywords[1] == "amazon";
    assert MatchesAny(text, CloudKeywords);
  }
}
