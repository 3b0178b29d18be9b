/**
 * The fixed tables the domain parser reads (`domaintools/data.py`): generic
 * top-level domains, country-code top-level domains (the internationalised
 * ones held in decoded Unicode form), "fake" top-level domains whose second
 * label is sold as a registrable name, and the second-level names of the
 * country codes that have them.
 *
 * Python lists are sequences searched with `Listed` (`in`), and Python dicts
 * are sequences of entries searched with `Lookup`. Long lists are written as
 * concatenations of alphabetical runs; membership in them is established
 * through the index lemmas below rather than by evaluating the whole list.
 */
module Tables {
  import opened Wrappers

  /** `s in names` for a Python list. */
  predicate Listed(names: seq<string>, s: string)
    decreases |names|
  {
    if |names| == 0 then false
    else if names[0] == s then true
    else Listed(names[1..], s)
  }

  /** A dict entry: a key and the list stored under it. */
  datatype Entry = Entry(key: string, values: seq<string>)

  /** `table.get(key)` for a Python dict given by its entries. */
  function Lookup(table: seq<Entry>, key: string): Option<seq<string>>
    decreases |table|
  {
    if |table| == 0 then None
    else if table[0].key == key then Some(table[0].values)
    else Lookup(table[1..], key)
  }

  /** Generic top-level domains, in two alphabetical runs. */
  const TldsAToI: seq<string> := [
      "aero", "asia", "biz", "cat", "com", "coop", "edu", "gov", "info", "int"
    ]
  const TldsJToT: seq<string> := [
      "jobs", "mil", "mobi", "museum", "name", "net", "org", "pro", "tel", "travel"
    ]
  const Tlds: seq<string> := TldsAToI + TldsJToT

  /**
   * Country-code top-level domains in ASCII form, in alphabetical runs
   * (`ht` stands last in the original list).
   */
  const CcTldsAcToAo: seq<string> := ["ac", "ad", "ae", "af", "ag", "ai", "al", "am", "an", "ao"]
  const CcTldsAqToBb: seq<string> := ["aq", "ar", "as", "at", "au", "aw", "ax", "az", "ba", "bb"]
  const CcTldsBdToBo: seq<string> := ["bd", "be", "bf", "bg", "bh", "bi", "bj", "bm", "bn", "bo"]
  const CcTldsBrToBz: seq<string> := ["br", "bs", "bt", "bv", "bw", "by", "bz"]
  const CcTldsAToB: seq<string> := CcTldsAcToAo + CcTldsAqToBb + CcTldsBdToBo + CcTldsBrToBz
  const CcTldsCaToCm: seq<string> := ["ca", "cc", "cd", "cf", "cg", "ch", "ci", "ck", "cl", "cm"]
  const CcTldsCnToDj: seq<string> := ["cn", "co", "cr", "cu", "cv", "cx", "cy", "cz", "de", "dj"]
  const CcTldsDkToEt: seq<string> := ["dk", "dm", "do", "dz", "ec", "ee", "eg", "er", "es", "et"]
  const CcTldsEuToFr: seq<string> := ["eu", "fi", "fj", "fk", "fm", "fo", "fr"]
  const CcTldsCToF: seq<string> := CcTldsCaToCm + CcTldsCnToDj + CcTldsDkToEt + CcTldsEuToFr
  const CcTldsGaToGm: seq<string> := ["ga", "gb", "gd", "ge", "gf", "gg", "gh", "gi", "gl", "gm"]
  const CcTldsGnToHk: seq<string> := ["gn", "gp", "gq", "gr", "gs", "gt", "gu", "gw", "gy", "hk"]
  const CcTldsHmToIo: seq<string> := ["hm", "hn", "hr", "hu", "id", "ie", "il", "im", "in", "io"]
  const CcTldsIqToJp: seq<string> := ["iq", "ir", "is", "it", "je", "jm", "jo", "jp"]
  const CcTldsGToJ: seq<string> := CcTldsGaToGm + CcTldsGnToHk + CcTldsHmToIo + CcTldsIqToJp
  const CcTldsKeToKy: seq<string> := ["ke", "kg", "kh", "ki", "km", "kn", "kp", "kr", "kw", "ky"]
  const CcTldsKzToLu: seq<string> := ["kz", "la", "lb", "lc", "li", "lk", "lr", "ls", "lt", "lu"]
  const CcTldsLvToLy: seq<string> := ["lv", "ly"]
  const CcTldsKToL: seq<string> := CcTldsKeToKy + CcTldsKzToLu + CcTldsLvToLy
  const CcTldsMaToMn: seq<string> := ["ma", "mc", "md", "me", "mg", "mh", "mk", "ml", "mm", "mn"]
  const CcTldsMoToMx: seq<string> := ["mo", "mp", "mq", "mr", "ms", "mt", "mu", "mv", "mw", "mx"]
  const CcTldsMyToNo: seq<string> := ["my", "mz", "na", "nc", "ne", "nf", "ng", "ni", "nl", "no"]
  const CcTldsNpToOm: seq<string> := ["np", "nr", "nu", "nz", "om"]
  const CcTldsMToO: seq<string> := CcTldsMaToMn + CcTldsMoToMx + CcTldsMyToNo + CcTldsNpToOm
  const CcTldsPaToPr: seq<string> := ["pa", "pe", "pf", "pg", "ph", "pk", "pl", "pm", "pn", "pr"]
  const CcTldsPsToRw: seq<string> := ["ps", "pt", "pw", "py", "qa", "re", "ro", "rs", "ru", "rw"]
  const CcTldsSaToSk: seq<string> := ["sa", "sb", "sc", "sd", "se", "sg", "sh", "si", "sj", "sk"]
  const CcTldsSlToSz: seq<string> := ["sl", "sm", "sn", "so", "sr", "st", "su", "sv", "sy", "sz"]
  const CcTldsPToS: seq<string> := CcTldsPaToPr + CcTldsPsToRw + CcTldsSaToSk + CcTldsSlToSz
  const CcTldsTcToTn: seq<string> := ["tc", "td", "tf", "tg", "th", "tj", "tk", "tl", "tm", "tn"]
  const CcTldsToToUk: seq<string> := ["to", "tp", "tr", "tt", "tv", "tw", "tz", "ua", "ug", "uk"]
  const CcTldsUsToVu: seq<string> := ["us", "uy", "uz", "va", "vc", "ve", "vg", "vi", "vn", "vu"]
  const CcTldsWfToHt: seq<string> := ["wf", "ws", "ye", "yt", "za", "zm", "zw", "ht"]
  const CcTldsTToZ: seq<string> := CcTldsTcToTn + CcTldsToToUk + CcTldsUsToVu + CcTldsWfToHt

  const AsciiCcTlds: seq<string> :=
    CcTldsAToB + CcTldsCToF + CcTldsGToJ + CcTldsKToL + CcTldsMToO + CcTldsPToS + CcTldsTToZ

  /** Internationalised country-code top-level domains, decoded from their `xn--` forms. */
  const IdnCcTlds: seq<string> := [
      "\U{4E2D}\U{56FD}", // xn--fiqs8s
      "\U{4E2D}\U{570B}", // xn--fiqz9s
      "\U{0DBD}\U{0D82}\U{0D9A}\U{0DCF}", // xn--fzc2c9e2c
      "\U{9999}\U{6E2F}", // xn--j6w193g
      "\U{53F0}\U{6E7E}", // xn--kprw13d
      "\U{53F0}\U{7063}", // xn--kpry57d
      "\U{0627}\U{0645}\U{0627}\U{0631}\U{0627}\U{062A}", // xn--mgbaam7a8h
      "\U{0627}\U{0644}\U{0627}\U{0631}\U{062F}\U{0646}", // xn--mgbayh7gpa
      "\U{0627}\U{0644}\U{0633}\U{0639}\U{0648}\U{062F}\U{064A}\U{0629}", // xn--mgberp4a5d4ar
      "\U{0E44}\U{0E17}\U{0E22}", // xn--o3cw4h
      "\U{0440}\U{0444}", // xn--p1ai
      "\U{062A}\U{0648}\U{0646}\U{0633}", // xn--pgbs0dh
      "\U{0645}\U{0635}\U{0631}", // xn--wgbh1c
      "\U{0B87}\U{0BB2}\U{0B99}\U{0BCD}\U{0B95}\U{0BC8}", // xn--xkc2al3hye2a
      "\U{0641}\U{0644}\U{0633}\U{0637}\U{064A}\U{0646}" // xn--ygbi2ammx
    ]

  /** All country-code top-level domains: the ASCII ones, then the internationalised ones. */
  const CcTlds: seq<string> := AsciiCcTlds + IdnCcTlds

  /** Second labels under which a generic top-level domain acts as a suffix of two labels. */
  const FakeTlds: seq<Entry> := [
      Entry("com", [
        "ar", "br", "cn", "de", "eu", "gb", "hu", "jpn", "kr", "no",
        "qc", "ru", "sa", "se", "uk", "us", "uy", "za"
      ]),
      Entry("net", [
        "gb", "se", "uk"
      ]),
      Entry("org", [
        "ae"
      ])
    ]

  /** Country codes that register names only under fixed second-level names. */
  const NoCustomSlds: seq<string> := [
      "au", "nz", "uk", "za"
    ]

  /** Country codes that register names directly and under fixed second-level names. */
  const SomeCustomSlds: seq<string> := [
      "ae", "af", "cn", "ec", "es", "in", "jp", "mx", "ph", "pr",
      "pro", "pt", "sg", "tw", "us"
    ]

  /**
   * The fixed second-level names of the country codes above, in three runs
   * (keys `ae` to `ec`, `es` to `pr`, `pro` to `za`).
   */
  const CcTldSldsAeToEc: seq<Entry> := [
      Entry("ae", [
        "co", "net", "org", "name", "pro"
      ]),
      Entry("af", [
        "com", "net", "org"
      ]),
      Entry("au", [
        "com", "net", "org", "edu", "asn", "id", "act", "nsw", "nt", "qld",
        "sa", "tas", "vlc", "wa"
      ]),
      Entry("cn", [
        "ac", "com", "net", "org", "ah", "bj", "cq", "fj", "gd", "gs",
        "gx", "gz", "ha", "hb", "he", "hi", "hl", "hn", "jl", "js",
        "jx", "ln", "nm", "nx", "qh", "sc", "sd", "sh", "sn", "sx",
        "tj", "tw", "xj", "xz", "yn", "zj"
      ]),
      Entry("ec", [
        "com", "info", "fin", "med", "net", "org", "pro"
      ])
    ]
  const CcTldSldsEsToPr: seq<Entry> := [
      Entry("es", [
        "com", "nom", "org"
      ]),
      Entry("in", [
        "co", "firm", "net", "org", "gen", "ind"
      ]),
      Entry("jp", [
        "co", "gr", "ne", "or"
      ]),
      Entry("mx", [
        "com", "net", "org"
      ]),
      Entry("nz", [
        "ac", "co", "geek", "gen", "maori", "net", "org", "school"
      ]),
      Entry("ph", [
        "com", "i", "net", "ngo", "org"
      ]),
      Entry("pr", [
        "biz", "com", "est", "info", "isla", "name", "net", "org", "pro"
      ])
    ]
  const CcTldSldsProToZa: seq<Entry> := [
      Entry("pro", [
        "aaa", "aca", "acct", "avocat", "bar", "cpa", "jur", "law", "med", "recht"
      ]),
      Entry("pt", [
        "com", "net", "nome", "org", "publ"
      ]),
      Entry("sg", [
        "com", "net", "org", "per"
      ]),
      Entry("tw", [
        "club", "com", "ebiz", "game", "idv", "net", "org"
      ]),
      Entry("uk", [
        "co", "ltd", "me", "net", "org", "plc"
      ]),
      Entry("us", [
        "kids"
      ]),
      Entry("za", [
        "co", "nom", "org"
      ])
    ]
  const CcTldSlds: seq<Entry> := CcTldSldsAeToEc + CcTldSldsEsToPr + CcTldSldsProToZa

  /** `cctld_slds[code]`, read only for codes that have an entry (`SecondLevelTablesKeyed`). */
  function SecondLevelNames(code: string): seq<string> {
    match Lookup(CcTldSlds, code)
    case Some(names) => names
    case None => []
  }

  /**
   * A label of 1 to 63 characters (so the `idna` codec accepts it as one
   * label) that does not end in a newline; every name the tables hold is one.
   */
  predicate IsShortLabel(s: string) {
    0 < |s| < 64 && s[|s| - 1] != '\n'
  }

  /** A short label of exactly two characters. */
  predicate IsTwoCharLabel(s: string) {
    IsShortLabel(s) && |s| == 2
  }

  predicate AllShortLabels(names: seq<string>) {
    forall i :: 0 <= i < |names| ==> IsShortLabel(names[i])
  }

  predicate AllTwoCharLabels(names: seq<string>) {
    forall i :: 0 <= i < |names| ==> IsTwoCharLabel(names[i])
  }

  /** A list holds a name exactly when the name stands at one of its positions. */
  lemma {:induction false} ListedIff(names: seq<string>, s: string)
    ensures Listed(names, s) <==> exists i :: 0 <= i < |names| && names[i] == s
    decreases |names|
  {
    if |names| > 0 {
      ListedIff(names[1..], s);
      if names[0] != s && Listed(names[1..], s) {
        var i :| 0 <= i < |names[1..]| && names[1..][i] == s;
        assert names[i + 1] == s;
      }
      if exists i :: 0 <= i < |names| && names[i] == s {
        var i :| 0 <= i < |names| && names[i] == s;
        if i > 0 {
          assert names[1..][i - 1] == s;
        }
      }
    }
  }

  /** The name at any position of a list is in it. */
  lemma ListedAt(names: seq<string>, i: int)
    requires 0 <= i < |names|
    ensures Listed(names, names[i])
  {
    ListedIff(names, names[i]);
  }

  /** `s in a + b` is `s in a or s in b`. */
  lemma ListedAppend(a: seq<string>, b: seq<string>, s: string)
    ensures Listed(a + b, s) <==> Listed(a, s) || Listed(b, s)
  {
    ListedIff(a + b, s);
    ListedIff(a, s);
    ListedIff(b, s);
    if Listed(a + b, s) {
      var i :| 0 <= i < |a + b| && (a + b)[i] == s;
      if i >= |a| {
        assert b[i - |a|] == s;
      }
    }
    if Listed(a, s) {
      var i :| 0 <= i < |a| && a[i] == s;
      assert (a + b)[i] == s;
    }
    if Listed(b, s) {
      var i :| 0 <= i < |b| && b[i] == s;
      assert (a + b)[|a| + i] == s;
    }
  }

  /** A dict has an entry for a key exactly when some entry carries that key. */
  lemma {:induction false} LookupIff(table: seq<Entry>, key: string)
    ensures Lookup(table, key).Some? <==> exists i :: 0 <= i < |table| && table[i].key == key
    decreases |table|
  {
    if |table| > 0 {
      LookupIff(table[1..], key);
      if table[0].key != key && Lookup(table[1..], key).Some? {
        var i :| 0 <= i < |table[1..]| && table[1..][i].key == key;
        assert table[i + 1].key == key;
      }
      if exists i :: 0 <= i < |table| && table[i].key == key {
        var i :| 0 <= i < |table| && table[i].key == key;
        if i > 0 {
          assert table[1..][i - 1].key == key;
        }
      }
    }
  }

  /** Looking up in `a + b` finds the entry of `a`, else that of `b`. */
  lemma {:induction false} LookupAppend(a: seq<Entry>, b: seq<Entry>, key: string)
    ensures Lookup(a + b, key) == if Lookup(a, key).Some? then Lookup(a, key) else Lookup(b, key)
    decreases |a|
  {
    if |a| > 0 {
      assert (a + b)[1..] == a[1..] + b;
      LookupAppend(a[1..], b, key);
    } else {
      assert a + b == b;
    }
  }

  /** A name of `a` is a name of `a + b`. */
  lemma ListedInPrefix(a: seq<string>, b: seq<string>, s: string)
    requires Listed(a, s)
    ensures Listed(a + b, s)
  {
    ListedIff(a, s);
    var i :| 0 <= i < |a| && a[i] == s;
    ListedAt(a + b, i);
  }

  /** A name of `b` is a name of `a + b`. */
  lemma ListedInSuffix(a: seq<string>, b: seq<string>, s: string)
    requires Listed(b, s)
    ensures Listed(a + b, s)
  {
    ListedIff(b, s);
    var i :| 0 <= i < |b| && b[i] == s;
    ListedAt(a + b, |a| + i);
  }

  /** A name of a list whose names are all longer than `n` is longer than `n`. */
  lemma ListedLonger(names: seq<string>, s: string, n: int)
    requires forall i :: 0 <= i < |names| ==> |names[i]| > n
    requires Listed(names, s)
    ensures |s| > n
  {
    ListedIff(names, s);
  }

  /** A name of a list of short labels is a short label. */
  lemma ListedShortLabel(names: seq<string>, s: string)
    requires AllShortLabels(names) && Listed(names, s)
    ensures IsShortLabel(s)
  {
    ListedIff(names, s);
  }

  /** A name of a list of two-character labels has two characters. */
  lemma ListedTwoCharLabel(names: seq<string>, s: string)
    requires AllTwoCharLabels(names) && Listed(names, s)
    ensures IsTwoCharLabel(s)
  {
    ListedIff(names, s);
  }

  lemma ShortLabelsAppend(a: seq<string>, b: seq<string>)
    requires AllShortLabels(a) && AllShortLabels(b)
    ensures AllShortLabels(a + b)
  {
    assert forall i :: |a| <= i < |a + b| ==> (a + b)[i] == b[i - |a|];
  }

  lemma TwoCharLabelsAppend(a: seq<string>, b: seq<string>)
    requires AllTwoCharLabels(a) && AllTwoCharLabels(b)
    ensures AllTwoCharLabels(a + b)
  {
    assert forall i :: |a| <= i < |a + b| ==> (a + b)[i] == b[i - |a|];
  }

  lemma TldsNames()
    ensures AllShortLabels(TldsAToI) && AllShortLabels(TldsJToT)
  {
  }

  lemma CcTldsAToBNames() ensures AllTwoCharLabels(CcTldsAToB) {}
  lemma CcTldsCToFNames() ensures AllTwoCharLabels(CcTldsCToF) {}
  lemma CcTldsGToJNames() ensures AllTwoCharLabels(CcTldsGToJ) {}
  lemma CcTldsKToLNames() ensures AllTwoCharLabels(CcTldsKToL) {}
  lemma CcTldsMToONames() ensures AllTwoCharLabels(CcTldsMToO) {}
  lemma CcTldsPToSNames() ensures AllTwoCharLabels(CcTldsPToS) {}
  lemma CcTldsTToZNames() ensures AllTwoCharLabels(CcTldsTToZ) {}
  lemma IdnCcTldsNames() ensures AllShortLabels(IdnCcTlds) {}

  /** The ASCII country codes are two-character short labels. */
  lemma AsciiCountryCodes()
    ensures AllTwoCharLabels(AsciiCcTlds)
  {
    CcTldsAToBNames();
    CcTldsCToFNames();
    CcTldsGToJNames();
    CcTldsKToLNames();
    CcTldsMToONames();
    CcTldsPToSNames();
    CcTldsTToZNames();
    TwoCharLabelsAppend(CcTldsAToB, CcTldsCToF);
    TwoCharLabelsAppend(CcTldsAToB + CcTldsCToF, CcTldsGToJ);
    TwoCharLabelsAppend(CcTldsAToB + CcTldsCToF + CcTldsGToJ, CcTldsKToL);
    TwoCharLabelsAppend(CcTldsAToB + CcTldsCToF + CcTldsGToJ + CcTldsKToL, CcTldsMToO);
    TwoCharLabelsAppend(CcTldsAToB + CcTldsCToF + CcTldsGToJ + CcTldsKToL + CcTldsMToO, CcTldsPToS);
    TwoCharLabelsAppend(
      CcTldsAToB + CcTldsCToF + CcTldsGToJ + CcTldsKToL + CcTldsMToO + CcTldsPToS, CcTldsTToZ);
  }

  /** The fake top-level domains are `com`, `net` and `org`. */
  lemma FakeTldKeys(t: string)
    requires Lookup(FakeTlds, t).Some?
    ensures t == "com" || t == "net" || t == "org"
  {
    LookupIff(FakeTlds, t);
  }

  /** The fake top-level domains are generic top-level domains. */
  lemma FakeTldsGeneric(t: string)
    requires Lookup(FakeTlds, t).Some?
    ensures Listed(Tlds, t)
  {
    FakeTldKeys(t);
    ListedAppend(TldsAToI, TldsJToT, t);
    if t == "com" {
      ListedAt(TldsAToI, 4);
    } else if t == "net" {
      ListedAt(TldsJToT, 5);
    } else {
      ListedAt(TldsJToT, 6);
    }
  }

  /** Every top-level name the tables hold is a short label; the fake ones are generic ones. */
  lemma TopLevelNames()
    ensures forall t :: Listed(Tlds, t) ==> IsShortLabel(t)
    ensures forall t :: Listed(CcTlds, t) ==> IsShortLabel(t)
    ensures forall t :: Lookup(FakeTlds, t).Some? ==> Listed(Tlds, t)
  {
    TldsNames();
    ShortLabelsAppend(TldsAToI, TldsJToT);
    AsciiCountryCodes();
    IdnCcTldsNames();
    assert AllShortLabels(AsciiCcTlds);
    ShortLabelsAppend(AsciiCcTlds, IdnCcTlds);
    forall t | Listed(Tlds, t) ensures IsShortLabel(t) {
      ListedShortLabel(Tlds, t);
    }
    forall t | Listed(CcTlds, t) ensures IsShortLabel(t) {
      ListedShortLabel(CcTlds, t);
    }
    forall t | Lookup(FakeTlds, t).Some? ensures Listed(Tlds, t) {
      FakeTldsGeneric(t);
    }
  }

  /** The ASCII country codes are two characters long. */
  lemma AsciiCcTldsLength()
    ensures forall t :: Listed(AsciiCcTlds, t) ==> |t| == 2
  {
    AsciiCountryCodes();
    forall t | Listed(AsciiCcTlds, t) ensures |t| == 2 {
      ListedTwoCharLabel(AsciiCcTlds, t);
    }
  }

  /** A name that is not two characters long is a country code only as an internationalised one. */
  lemma LongCountryCodes(s: string)
    requires |s| != 2
    ensures Listed(CcTlds, s) <==> Listed(IdnCcTlds, s)
  {
    AsciiCountryCodes();
    OnlyLongNames(AsciiCcTlds, IdnCcTlds, s);
  }

  /** Past a list of two-letter codes, a longer name can only be found in what follows. */
  lemma OnlyLongNames(codes: seq<string>, rest: seq<string>, s: string)
    requires AllTwoCharLabels(codes) && |s| != 2
    ensures Listed(codes + rest, s) <==> Listed(rest, s)
  {
    ListedAppend(codes, rest, s);
    if Listed(codes, s) {
      ListedTwoCharLabel(codes, s);
    }
  }

  /** The codes without custom second-level names have entries in `cctld_slds`. */
  lemma NoCustomSldsKeyed(code: string)
    requires Listed(NoCustomSlds, code)
    ensures Lookup(CcTldSlds, code).Some?
  {
    ListedIff(NoCustomSlds, code);
    var i :| 0 <= i < |NoCustomSlds| && NoCustomSlds[i] == code;
    var j := [2, 9, 16, 18][i];
    assert CcTldSlds[j].key == code;
    LookupIff(CcTldSlds, code);
  }

  /** The codes with some custom second-level names have entries in `cctld_slds`. */
  lemma SomeCustomSldsKeyed(code: string)
    requires Listed(SomeCustomSlds, code)
    ensures Lookup(CcTldSlds, code).Some?
  {
    ListedIff(SomeCustomSlds, code);
    var i :| 0 <= i < |SomeCustomSlds| && SomeCustomSlds[i] == code;
    if i < 8 {
      SomeCustomSldsKeyedBelow(i);
    } else {
      SomeCustomSldsKeyedAbove(i);
    }
  }

  lemma SomeCustomSldsKeyedBelow(i: int)
    requires 0 <= i < 8
    ensures Lookup(CcTldSlds, SomeCustomSlds[i]).Some?
  {
    var j := [0, 1, 3, 4, 5, 6, 7, 8][i];
    assert CcTldSlds[j].key == SomeCustomSlds[i];
    LookupIff(CcTldSlds, SomeCustomSlds[i]);
  }

  lemma SomeCustomSldsKeyedAbove(i: int)
    requires 8 <= i < |SomeCustomSlds|
    ensures Lookup(CcTldSlds, SomeCustomSlds[i]).Some?
  {
    var j := [10, 11, 12, 13, 14, 15, 17][i - 8];
    assert CcTldSlds[j].key == SomeCustomSlds[i];
    LookupIff(CcTldSlds, SomeCustomSlds[i]);
  }

  /**
   * Every code the parser looks up in `cctld_slds` has an entry there, so the
   * lookup never raises `KeyError`.
   */
  lemma SecondLevelTablesKeyed(code: string)
    requires Listed(NoCustomSlds + SomeCustomSlds, code)
    ensures Lookup(CcTldSlds, code).Some?
  {
    ListedAppend(NoCustomSlds, SomeCustomSlds, code);
    if Listed(NoCustomSlds, code) {
      NoCustomSldsKeyed(code);
    } else {
      SomeCustomSldsKeyed(code);
    }
  }

  /** The internationalised country codes start with a character past `z`. */
  lemma IdnCcTldsNonAscii()
    ensures forall i :: 0 <= i < |IdnCcTlds| ==> IdnCcTlds[i] != "" && IdnCcTlds[i][0] > 'z'
  {
  }

  /** Generic top-level domains have at least three letters. */
  lemma TldsLong()
    ensures forall i :: 0 <= i < |TldsAToI| ==> |TldsAToI[i]| > 2
    ensures forall i :: 0 <= i < |TldsJToT| ==> |TldsJToT[i]| > 2
  {
  }

  /** A name of fewer than three characters is not a generic top-level domain. */
  lemma ShortNotGeneric(s: string)
    requires |s| < 3
    ensures !Listed(Tlds, s)
  {
    TldsLong();
    ListedAppend(TldsAToI, TldsJToT, s);
    if Listed(TldsAToI, s) {
      ListedLonger(TldsAToI, s, 2);
    } else if Listed(TldsJToT, s) {
      ListedLonger(TldsJToT, s, 2);
    }
  }

  /** A name that is in neither run of generic top-level domains is not one. */
  lemma NotGeneric(s: string)
    requires !Listed(TldsAToI, s) && !Listed(TldsJToT, s)
    ensures !Listed(Tlds, s)
  {
    ListedAppend(TldsAToI, TldsJToT, s);
  }

  /** A name that is not a generic top-level domain is not a fake one. */
  lemma NotFake(s: string)
    requires !Listed(Tlds, s)
    ensures Lookup(FakeTlds, s).None?
  {
    if Lookup(FakeTlds, s).Some? {
      FakeTldsGeneric(s);
    }
  }

  /** A name whose first character starts no name of a list is not in it. */
  lemma NotListedByFirst(names: seq<string>, s: string)
    requires s != ""
    requires forall i :: 0 <= i < |names| ==> names[i] != "" && names[i][0] != s[0]
    ensures !Listed(names, s)
  {
    ListedIff(names, s);
  }

  /** A name that starts with an ASCII letter is no internationalised country code. */
  lemma NotIdnCountryCode(s: string)
    requires s != "" && 'a' <= s[0] <= 'z'
    ensures !Listed(IdnCcTlds, s)
  {
    IdnCcTldsNonAscii();
    NotListedByFirst(IdnCcTlds, s);
  }

  /** A name of other than two characters that starts with an ASCII letter is no country code. */
  lemma NotCountryCode(s: string)
    requires |s| != 2 && s != "" && 'a' <= s[0] <= 'z'
    ensures !Listed(CcTlds, s)
  {
    NotIdnCountryCode(s);
    LongCountryCodes(s);
  }

  lemma GoatNotInTldsAToI() ensures !Listed(TldsAToI, "goat") {}
  lemma GoatNotInTldsJToT() ensures !Listed(TldsJToT, "goat") {}

  /** `goat` is not a generic top-level domain. */
  lemma GoatNotGeneric()
    ensures !Listed(Tlds, "goat")
  {
    GoatNotInTldsAToI();
    GoatNotInTldsJToT();
    NotGeneric("goat");
  }

  /** `goat` is no top-level domain. */
  lemma GoatUnknown()
    ensures !Listed(Tlds, "goat") && !Listed(CcTlds, "goat") && Lookup(FakeTlds, "goat").None?
  {
    GoatNotGeneric();
    NotFake("goat");
    NotCountryCode("goat");
  }

  lemma TwoNotInTldsAToI() ensures !Listed(TldsAToI, "two") {}
  lemma TwoNotInTldsJToT() ensures !Listed(TldsJToT, "two") {}

  /** `two` is not a generic top-level domain. */
  lemma TwoNotGeneric()
    ensures !Listed(Tlds, "two")
  {
    TwoNotInTldsAToI();
    TwoNotInTldsJToT();
    NotGeneric("two");
  }

  /** `two` is no top-level domain. */
  lemma TwoUnknown()
    ensures !Listed(Tlds, "two") && !Listed(CcTlds, "two") && Lookup(FakeTlds, "two").None?
  {
    TwoNotGeneric();
    NotFake("two");
    NotCountryCode("two");
  }

  /** `uk` is neither a generic nor a fake top-level domain. */
  lemma UkNotGeneric()
    ensures !Listed(Tlds, "uk") && Lookup(FakeTlds, "uk").None?
  {
    ShortNotGeneric("uk");
    NotFake("uk");
  }

  /** `uk` is a country code. */
  lemma UkCountryCode()
    ensures Listed(CcTlds, "uk")
  {
    var uk := CcTldsToToUk[9];
    ListedAt(CcTldsToToUk, 9);
    ListedInSuffix(CcTldsTcToTn, CcTldsToToUk, uk);
    ListedInPrefix(CcTldsTcToTn + CcTldsToToUk, CcTldsUsToVu, uk);
    ListedInPrefix(CcTldsTcToTn + CcTldsToToUk + CcTldsUsToVu, CcTldsWfToHt, uk);
    ListedInSuffix(
      CcTldsAToB + CcTldsCToF + CcTldsGToJ + CcTldsKToL + CcTldsMToO + CcTldsPToS, CcTldsTToZ, uk);
    ListedInPrefix(AsciiCcTlds, IdnCcTlds, uk);
  }

  /** `uk` registers names only under its fixed second-level names. */
  lemma UkNoCustom()
    ensures Listed(NoCustomSlds, "uk") && Listed(NoCustomSlds + SomeCustomSlds, "uk")
  {
    ListedInPrefix(NoCustomSlds, SomeCustomSlds, "uk");
  }

  /** `uk` has no entry among the first two runs of `cctld_slds`. */
  lemma UkNotEarly()
    ensures Lookup(CcTldSldsAeToEc + CcTldSldsEsToPr, "uk").None?
  {
    UkNotInSldsAeToEc();
    UkNotInSldsEsToPr();
    LookupAppend(CcTldSldsAeToEc, CcTldSldsEsToPr, "uk");
  }

  lemma UkNotInSldsAeToEc() ensures Lookup(CcTldSldsAeToEc, "uk").None? {}
  lemma UkNotInSldsEsToPr() ensures Lookup(CcTldSldsEsToPr, "uk").None? {}

  /** `co` is a second-level name of `uk`. */
  lemma UkSecondLevelNames()
    ensures Listed(SecondLevelNames("uk"), "co")
  {
    UkNotEarly();
    LookupAppend(CcTldSldsAeToEc + CcTldSldsEsToPr, CcTldSldsProToZa, "uk");
  }

  /** `pro` is a generic top-level domain, not a fake one. */
  lemma ProGeneric()
    ensures Listed(Tlds, "pro") && Lookup(FakeTlds, "pro").None?
  {
    ListedAt(TldsJToT, 7);
    ListedInSuffix(TldsAToI, TldsJToT, "pro");
    if Lookup(FakeTlds, "pro").Some? {
      FakeTldKeys("pro");
    }
  }

  /** `pro` is also a country code with some custom second-level names, and has an entry of them. */
  lemma ProSecondLevel()
    ensures Listed(SomeCustomSlds, "pro") && Lookup(CcTldSlds, "pro").Some?
  {
    ListedAt(SomeCustomSlds, 10);
    SomeCustomSldsKeyed("pro");
  }
}
