# domaintools in Dafny

A model of `domaintools`, a Python 2 library that splits a host name into
subdomain, second-level domain (SLD) and top-level domain (TLD), decides
whether it is a valid registrable name, and pulls such names out of text. The
model covers four parts of the library:

- The `Domain` class (`domaintools/__init__.py`). `Domains.New` is the
  constructor. It cuts a port at the last colon, optionally decodes IDNA,
  lower-cases, splits on dots and drops one trailing empty label.
  - A constructed `Domain` never changes. Its cached properties are pure
    functions of its labels: `Tld`, `Sld`, `Subdomain`, `Valid`,
    `RegistrableDomain` (the `domain` property), `Str` (`__str__`), and
    `Equals`/`NotEquals` (`__eq__`/`__ne__`).
  - `__unicode__` is the `fullDomain` field.
  - Every exception the code can raise is a `Failure`:
    - `IndexError`: `tld` on no labels, or on a single `com`, `net` or `org`.
    - `AttributeError`: `__str__` when there is no SLD. It escapes `valid`.
    - `UnicodeError`: IDNA encoding or decoding. `valid` catches it, the
      constructor and `normalize_domain` do not.
- `Domain.extract` (`Extraction.Extract`). It walks a text or a sequence of
  lines section by section, in the source's loop form. It is proved equal to a
  fold (`KeepValid`) over all sections, and the fold is proved sound and
  complete (`ExtractOutcome`).
- `parse_tld_data` (`domaintools/build_data_file.py`), as a loop over the
  lines of the public suffix list (`SuffixList.IngestLines`). It is proved
  equal to a left fold, and `TldDataContents` proves what the resulting table
  holds.
- `cached_property` and `normalize_domain` (`domaintools/utils.py`):
  - `cached_property` is defined identically in `__init__.py`. It is a
    `Caching.Instance` class whose attribute map `Read` updates.
  - `normalize_domain` is a function.

The tables of `domaintools/data.py` are constants in `Tables`. A Python list
is a sequence searched with `Listed` (`in`), and a dict is a sequence of
entries searched with `Lookup`, so membership follows the list's order as
Python's does.

What Python's runtime would provide is a parameter of type `Codecs.Platform`:
- `unicode.lower` on non-ASCII characters;
- the IDNA ToASCII and ToUnicode steps on non-ASCII or `xn--` labels;
- UTF-8 decoding;
- `urlparse(...).hostname`.

The ASCII behaviour of the `idna` codec is modelled concretely: a label of 1
to 63 characters passes unchanged, labels split on the four IDNA dots, and a
trailing dot is kept. The regular expressions follow Python 2.7:
- `$` also matches before a final newline;
- `\s` without `re.UNICODE` is ASCII whitespace;
- `unicode.strip()` strips Unicode whitespace.

`domaintools/tests.py` expects behaviour the code does not have: an
`allow_private` argument, a `private` property, and TLDs such as `wtf` and
`com.bn` that are absent from `data.py`. The model follows the code.

The doctest of `extract` lists four domains (`foo.com`, `bar.net`,
`something.co.za` and `three.cc`) from a text containing `one.two`. In the
code, `Domain('one.two').valid` raises `AttributeError`: `two` is not a known
TLD, so `__str__` reads `.encode` of a missing SLD. So `extract` raises on
that text (`Extraction.OneTwoRaises`). The model follows the code.

## Model

| member | source | states |
|---|---|---|
| Domains.New | domaintools/__init__.py:50-60 | fails (UnicodeError) exactly when IDNA decoding is asked for, the host contains `xn--` and decoding it as unicode text fails; the full name is the lower-cased host, or the lower-cased decoded host when decoding applies; the labels have no dots, and they are its dot-split with at most one trailing empty label removed (joining them gives back the name) |
| Domains.DecodeSplitsOnIdnaDots | domaintools/__init__.py:54-56 | with decoding asked for, an `xn--` label, any of the four IDNA dots and a second label decode label by label and are joined by a full stop, as the `idna` codec does on unicode text |
| Domains.ParseOfJoin | domaintools/__init__.py:50-60 | a lower-case ASCII name without a colon or a final dot, joined from dotless labels, is parsed back into exactly those labels |
| Domains.StripPort | domaintools/__init__.py:51-53 | with a colon, the result is the prefix before the last colon; without one, the text itself |
| Domains.Tld | domaintools/__init__.py:117-141 | raises IndexError exactly for no labels or a single fake-TLD label (`com`, `net`, `org`); a found TLD is the last label or the last two joined by a dot |
| Domains.TldTwoLabels | domaintools/__init__.py:127-138 | `tld` is the last two labels joined exactly when they are a fake TLD and a name sold under it, or a ccTLD that is no gTLD, has fixed second-level names, and is preceded by one of them |
| Domains.TldOneLabel | domaintools/__init__.py:127-140 | `tld` is the last label alone exactly for a gTLD that forms no fake pair and is not a lone fake TLD, or for a ccTLD that is no gTLD, is preceded by a label that is not one of its second-level names, and is not in `no_custom_slds` |
| Domains.TldNone | domaintools/__init__.py:127-141 | `tld` is None exactly when the last label is no gTLD and is no ccTLD, or is a ccTLD standing alone, or is a ccTLD of `no_custom_slds` preceded by a label that is not one of its second-level names |
| Domains.Sld | domaintools/__init__.py:77-95 | raises exactly when `tld` raises; a present SLD implies a present TLD |
| Domains.SldAbsent | domaintools/__init__.py:77-95 | for dotless labels, the SLD is None when the TLD is None, and otherwise exactly when the TLD takes every label (one for a one-label TLD, two for a two-label one) |
| Domains.Subdomain | domaintools/__init__.py:97-115 | raises exactly when `tld` raises; a present subdomain implies a present SLD |
| Domains.Decomposition | domaintools/__init__.py:77-141 | when an SLD exists, it is one label; the TLD is the one or two labels after it; the subdomain is all labels before it, or None; and subdomain, SLD and TLD joined by dots give the whole dotted name |
| Domains.LastLabelName | domaintools/__init__.py:127-141 | a found TLD always ends in a label listed among the gTLDs or ccTLDs, and so in a label of 1 to 63 characters |
| Domains.Str | domaintools/__init__.py:185-195 | raises IndexError exactly when `tld` raises, and AttributeError exactly when there is no SLD; a result implies SLD and TLD both exist |
| Domains.StrAscii | domaintools/__init__.py:185-195 | for ASCII labels with an SLD, `__str__` succeeds exactly when the SLD and TLD labels are under 64 characters, and then equals the labels joined by dots |
| Domains.SuffixAscii | domaintools/__init__.py:194 | the one- or two-label ASCII TLD passes the `idna` encoder unchanged exactly when its labels are under 64 characters |
| Domains.EncodeLabel | domaintools/__init__.py:194 | an ASCII label encodes to itself when shorter than 64 characters, and fails otherwise |
| Domains.EncodePair | domaintools/__init__.py:194 | two ASCII labels joined by a dot encode to themselves exactly when both are shorter than 64 characters |
| Domains.JoinValidChars | domaintools/__init__.py:47 | a dotted name uses only `[a-z0-9.-]` exactly when each label does |
| Domains.MatchesJoin | domaintools/__init__.py:47 | the anchored pattern matches a dotted name ending in a non-empty label without a final newline exactly when every label uses only `[a-z0-9.-]` |
| Domains.Valid | domaintools/__init__.py:143-166 | raises (AttributeError) exactly when there are at least two labels, none empty, and no SLD; True implies at least two non-empty labels, TLD and SLD present and `__str__` matching the pattern; an IDNA failure in `__str__` gives False |
| Domains.ValidShape | domaintools/__init__.py:157-166 | once `__str__` succeeds on two or more non-empty labels, validity is exactly the pattern match on it |
| Domains.ValidAscii | domaintools/__init__.py:143-166 | for ASCII labels, valid exactly when there are two or more labels, every one non-empty and in `[a-z0-9-]`, an SLD exists, and the SLD and TLD labels are under 64 characters |
| Domains.RegistrableDomain | domaintools/__init__.py:62-75 | raises exactly when `valid` raises; present exactly when valid, and then it is the SLD, a dot and the TLD |
| Domains.RegistrableDomainLabels | domaintools/__init__.py:62-75 | for a valid name, `domain` is the last two or three labels joined by dots, and the subdomain is the labels before them |
| Domains.Equals | domaintools/__init__.py:197-208 | raises (IndexError) exactly when `tld` raises on either side; otherwise equal exactly when TLD, SLD and subdomain all agree |
| Domains.NotEquals | domaintools/__init__.py:210-220 | raises exactly when `__eq__` raises; otherwise its negation |
| Domains.SameLabelsEqual | domaintools/__init__.py:197-220 | a name equals itself and is not unequal to itself, whenever `tld` does not raise |
| Domains.SameParts | domaintools/__init__.py:197-208 | names with an SLD whose TLD, SLD and subdomain agree have the same labels |
| Domains.EqualsIffSameLabels | domaintools/__init__.py:197-208 | a name with an SLD equals another exactly when the other's `tld` does not raise and their labels are the same |
| Domains.UnknownSuffixesEqual | domaintools/__init__.py:197-208 | any two names whose TLD is unknown compare equal |
| Domains.BrokerdazeExample | domaintools/__init__.py:117-141 | `Domain(u'www.brokerdaze.co.uk')`, as in the docstring of `tld`, has TLD `co.uk`, SLD `brokerdaze` and subdomain `www` |
| Domains.CoUkSuffix | domaintools/__init__.py:133-138 | any name ending in `co` and `uk` has the two-label TLD `co.uk`: `uk` is a ccTLD that allows no custom SLDs, and `co` is one of its SLDs |
| Domains.CoUkRaises | domaintools/__init__.py:157-166 | `valid` of `Domain('co.uk')` raises AttributeError: the TLD takes both labels, leaving no SLD |
| Domains.NoSuffix | domaintools/__init__.py:127-141 | a name whose last label is neither a gTLD, nor a ccTLD, nor a fake TLD has no TLD (and `tld` does not raise) |
| Domains.UnknownSuffixRaises | domaintools/__init__.py:157-166 | for two or more labels, none empty, whose last label is no gTLD, ccTLD or fake TLD, `valid` raises AttributeError on every platform instead of answering false |
| Domains.SubGoatRaises | domaintools/__init__.py:157-166 | `valid` of `Domain('sub.goat')` raises AttributeError: `goat` is not a TLD |
| Domains.ParseOfPlainLabels | domaintools/__init__.py:50-60 | a name joined from dotless labels in `[a-z0-9-]`, the last non-empty, is parsed back into exactly those labels |
| Domains.ParseOfTwoPlainLabels | domaintools/__init__.py:50-60 | a text that is two dotless `[a-z0-9-]` labels around a dot, the second non-empty, is parsed into exactly those two labels |
| Domains.GoatCoUkParse | domaintools/__init__.py:57-60 | `Domain('goat.co.uk')` has the labels `goat`, `co` and `uk` |
| Domains.GoatCoUkValid | domaintools/__init__.py:143-166 | `Domain('goat.co.uk')` is valid |
| Domains.SingleFakeTld | domaintools/__init__.py:128-129 | a single `com`, `net` or `org` label makes `tld` raise IndexError, while `valid` returns False before reading it |
| Domains.ProSecondLevelNamesUnused | domaintools/__init__.py:131-132 | `pro` also has an SLD list, but a name ending in `pro` always has the one-label TLD `pro`, because the gTLD test comes first |
| Extraction.Candidate | domaintools/__init__.py:240-244 | a section without `://` is used as it is; with one, it is replaced by the URL's host name whenever there is one, and kept as it is otherwise |
| Extraction.ParseSection | domaintools/__init__.py:240-247 | the domain built from one section and its `valid` are those of the specification functions |
| Extraction.KeepSections | domaintools/__init__.py:239-247 | appending the valid domains of further sections to a list gives the fold over all sections seen so far |
| Extraction.ParseString | domaintools/__init__.py:238-247 | `parse_string` extends the result with the fold over the sections of its stripped, whitespace-split text |
| Extraction.Extract | domaintools/__init__.py:222-253 | the result is the fold over the sections of the text, or of every line in turn; any other object yields an empty list |
| Extraction.ExtractOutcome | domaintools/__init__.py:236-253 | `extract` raises (AttributeError) exactly when `valid` raises on some section; otherwise it returns only valid domains built from sections, and every section giving a valid domain is in the result |
| Extraction.KeepWhereFails | domaintools/__init__.py:245-247 | the fold fails exactly when the test fails on some element, and then with the error of an element whose test failed |
| Extraction.KeepWhereSound | domaintools/__init__.py:245-247 | everything kept comes from an element the test accepted |
| Extraction.KeepWhereComplete | domaintools/__init__.py:245-247 | every element the test accepts has its image kept |
| Extraction.KeepWhereAppend | domaintools/__init__.py:250-252 | the fold over two pieces succeeds exactly when it succeeds on both, and then concatenates the results |
| Extraction.FlatMapAppend | domaintools/__init__.py:250-252 | the sections of two groups of lines are the sections of each, in order |
| Extraction.SectionsShape | domaintools/__init__.py:239 | sections contain no spaces; blank text gives one empty section; otherwise no section is empty |
| Extraction.OneTwoParse | domaintools/__init__.py:245 | `one.two` has the labels `one` and `two` |
| Extraction.OneTwoInvalid | domaintools/__init__.py:157-166 | `valid` on `one.two` raises AttributeError |
| Extraction.OneTwoRaises | domaintools/__init__.py:231-234 | any input whose sections include `one.two`, as in the doctest of `extract`, makes `extract` raise AttributeError |
| SuffixList.Bucket | domaintools/build_data_file.py:22-25 | the key a rule is filed under has no dot |
| SuffixList.BucketOfRule | domaintools/build_data_file.py:22-25 | the key is the rule's last dot-separated fragment: a suffix of it, shorter exactly when the rule has a dot, and then preceded by a dot |
| SuffixList.Classify | domaintools/build_data_file.py:14-21 | reading one line can fail only with UnicodeError |
| SuffixList.AsciiRuleVerbatim | domaintools/build_data_file.py:14-21 | a non-comment ASCII line whose labels have 1 to 63 characters is kept verbatim as a rule |
| SuffixList.ReadLine | domaintools/build_data_file.py:14-25 | one pass of the loop: the marker sets the flag, empty and comment lines change nothing, a rule is filed under its last fragment with the current flag, and a decoding failure is UnicodeError |
| SuffixList.FileRule | domaintools/build_data_file.py:22-25 | filing a rule gives the table of one loop step: the rule's bucket is created if missing and maps the rule to the current flag |
| SuffixList.IngestLines | domaintools/build_data_file.py:11-26 | the loop succeeds exactly when the fold over the lines does, returns the fold's table, and fails only with UnicodeError |
| SuffixList.ParseTldData | domaintools/build_data_file.py:9-26 | the result is the fold over the newline-split data |
| SuffixList.IngestFails | domaintools/build_data_file.py:13-21 | parsing fails exactly when some line fails to classify, and always with UnicodeError |
| SuffixList.StepFiled | domaintools/build_data_file.py:22-25 | one step keeps every bucket non-empty and every rule under its own last fragment |
| SuffixList.IngestFiled | domaintools/build_data_file.py:11-26 | in the final table every bucket is non-empty and holds only rules whose last fragment is its key |
| SuffixList.IngestDescribes | domaintools/build_data_file.py:11-25 | after the lines read, the flag is up exactly when the marker was seen; the table holds exactly the rules read; a rule is private exactly when some line holding it follows the marker |
| SuffixList.TldDataContents | domaintools/build_data_file.py:9-26 | a successful parse files every rule under its last fragment, holds nothing else, and marks a rule private exactly when it appears after the private-domains marker |
| Caching.Key | domaintools/utils.py:13 | the attribute name is `__` followed by the property's name |
| Caching.KeyInjective | domaintools/utils.py:13 | two properties share an attribute exactly when they share a name |
| Caching.Instance.Read | domaintools/utils.py:12-19 | a cached value is returned unchanged; otherwise the property is computed, stored on success and not stored on failure; only the property's own attribute changes, and a coherent cache stays coherent and returns the computed value |
| Caching.ReadTwice | domaintools/utils.py:4-22 | on a fresh object, two reads through the cache both give what the property computes |
| Utils.NormalizeDomain | domaintools/utils.py:25-34 | fails only with UnicodeError |
| Utils.NormalizeBytes | domaintools/utils.py:27-29 | bytes that are not UTF-8 fail with UnicodeError; otherwise they normalise as their decoded text |
| Utils.NormalizeCutsAtFirstColon | domaintools/utils.py:31 | everything from the first colon on has no effect |
| Utils.BeforeFirstAbsent | domaintools/utils.py:31 | text without a colon is not cut |
| Utils.NormalizeAscii | domaintools/utils.py:25-34 | an ASCII name without a colon whose lower-cased labels have 1 to 63 characters and no `xn--` prefix normalises to its lower-case form |
| Utils.NormalizeIdempotentAscii | domaintools/utils.py:25-34 | on such names normalising succeeds, and normalising the result again gives the same result |
| Utils.FirstColonVersusLastColon | domaintools/utils.py:31 | `normalize_domain` cuts at the first colon while the `Domain` constructor cuts at the last: from `a:b:c` they keep `a` and `a:b` |
| Text.BeforeLast | domaintools/__init__.py:53 | `rsplit(':', 1)[0]`: a proper prefix, followed by the separator, with no separator after it |
| Text.BeforeFirst | domaintools/utils.py:31 | `partition(':')[0]`: the longest prefix without the separator; shorter than the text exactly when the separator occurs, and then followed by it |
| Text.Split | domaintools/__init__.py:58 | splitting gives at least one piece and no piece holds the separator |
| Text.JoinSplit | domaintools/__init__.py:58 | joining the pieces of a split gives back the text |
| Text.SplitJoin | domaintools/__init__.py:58 | splitting a join of separator-free pieces gives back the pieces |
| Text.DropTrailingEmpty | domaintools/__init__.py:59-60 | only a trailing empty label is removed, and exactly one |
| Text.HostLabelsJoin | domaintools/__init__.py:57-60 | the labels of a name, joined by dots and followed by any trailing dot, give back the name; they differ from the plain split exactly when the name ends in a dot |
| Text.HostLabelsSplit | domaintools/__init__.py:58-60 | the labels are the dot-split of the name, or the dot-split less one final empty label |
| Text.HostLabelsOfJoin | domaintools/__init__.py:57-60 | dotless labels with a non-empty last one are the labels of their join |
| Text.TrimStart | domaintools/__init__.py:239 | stripping on the left removes exactly the leading whitespace |
| Text.TrimEnd | domaintools/__init__.py:239 | stripping on the right removes exactly the trailing whitespace |
| Text.SplitOnSpaceRunsWords | domaintools/__init__.py:239 | `re.split(r'\s+', s)` is the split on one space of the text with every run of `\s` characters turned into a single space: the pieces are the whitespace-separated words in order, with an empty first or last piece for leading or trailing white space |
| Text.SplitOnSpaceRunsJoin | domaintools/__init__.py:239 | the pieces joined by single spaces give the text with each white-space run turned into one space |
| Text.SplitOnSpaceRuns | domaintools/__init__.py:239 | splitting on whitespace runs gives pieces without whitespace, non-empty inside, and non-empty at an end that does not start or end with whitespace |
| Codecs.Lower | domaintools/__init__.py:57 | lower-casing maps each character separately and keeps the length |
| Codecs.LowerOfLower | domaintools/utils.py:33 | lower-case ASCII text lowers to itself |
| Codecs.LabelToAscii | domaintools/__init__.py:194 | an ASCII label passes the `idna` encoder exactly when it has 1 to 63 characters, and then unchanged |
| Codecs.LabelToUnicode | domaintools/__init__.py:56 | an ASCII label without the `xn--` prefix decodes to itself |
| Codecs.IdnaDecodeBytes | domaintools/utils.py:33 | decoding the byte string that `encode('idna')` returned fails on a non-ASCII character, as the `idna` codec's ASCII check on byte strings does |
| Codecs.EncodeAscii | domaintools/__init__.py:194 | an ASCII name encodes to itself exactly when every label has 1 to 63 characters, a trailing dot being kept |
| Codecs.RoundTripAscii | domaintools/utils.py:33 | an ASCII name whose labels have 1 to 63 characters and no `xn--` prefix survives IDNA encoding and decoding unchanged |
| Tables.ListedIff | domaintools/__init__.py:131-133 | `in` on a list holds exactly when the name stands at some position of it |
| Tables.ListedAppend | domaintools/__init__.py:136 | `in` on two concatenated lists holds exactly when it holds on either |
| Tables.LookupIff | domaintools/__init__.py:129 | `in` on a dict holds exactly when some entry carries the key |
| Tables.LookupAppend | domaintools/data.py:68-97 | a dict written as two runs of entries answers from the first run when the key is there, else from the second |
| Tables.TopLevelNames | domaintools/data.py:7-59 | every gTLD and ccTLD in the tables has 1 to 63 characters and does not end in a newline, and every fake TLD is a gTLD |
| Tables.FakeTldKeys | domaintools/data.py:35-40 | every key of `fake_tlds` is `com`, `net` or `org` |
| Tables.FakeTldsGeneric | domaintools/data.py:7-40 | every fake TLD is also a gTLD |
| Tables.AsciiCcTldsLength | domaintools/data.py:11-33 | every ASCII ccTLD has two characters |
| Tables.LongCountryCodes | domaintools/data.py:11-59 | a name not two characters long is a ccTLD exactly when it is one of the IDN ccTLDs |
| Tables.SecondLevelTablesKeyed | domaintools/data.py:61-97 | every code of `no_custom_slds` or `some_custom_slds` has an entry in `cctld_slds`, so the lookup in `tld` never raises KeyError |
| Tables.ShortNotGeneric | domaintools/data.py:7-9 | a name of fewer than three characters is no gTLD |
| Tables.NotCountryCode | domaintools/data.py:11-59 | a name starting with an ASCII letter and not two characters long is no ccTLD |
| Tables.GoatUnknown | domaintools/data.py:7-59 | `goat` is no gTLD, no ccTLD and no fake TLD |
| Tables.TwoUnknown | domaintools/data.py:7-59 | `two` is no gTLD, no ccTLD and no fake TLD |
| Tables.UkCountryCode | domaintools/data.py:31 | `uk` is a ccTLD |
| Tables.UkSecondLevelNames | domaintools/data.py:95 | `co` is a second-level name of `uk` |
| Tables.ProGeneric | domaintools/data.py:8 | `pro` is a gTLD and not a fake TLD |
| Tables.ProSecondLevel | domaintools/data.py:64-90 | `pro` is also listed with some custom SLDs and has an entry of them |

## Left out

- `update_data_file` in `domaintools/build_data_file.py` fetches the suffix list over the network and writes `data.py`. It is not part of this model.
- `Domain.__repr__` only formats `__str__` for display and is not modelled.
- `unicode.lower` on non-ASCII characters, IDNA ToASCII/ToUnicode of non-ASCII or `xn--` labels, UTF-8 decoding and `urlparse` are parameters (`Codecs.Platform`), not definitions. A `ValueError` that `urlparse` may raise on a malformed URL is not modelled: the host name is either found or absent.
- Extraction.Extract: the lines of a file-like object are taken as text. Lines given as Python 2 byte strings, with their implicit ASCII decoding, are not modelled. `Other` stands for any object without `__iter__`, including byte strings, for which `extract` returns an empty list.
- Domains.New: the source stores the labels in a list and pops an empty last label in place. The model builds the final list as a value, which is what the object holds afterwards.
- Domains.New: `domain_string` is taken as unicode text, its documented type, so decoding splits on all four IDNA dots. A byte string argument, which the `idna` codec would first require to be ASCII and split only on `.`, is not modelled.
- Caching.Instance.Read: the property's computation is a pure function of the object's fixed state. Properties such as `valid` read other cached properties, which fill their own attributes as they go; those nested cache writes are not modelled. Every value they store equals what they compute, so no result changes.
- The cached properties of `Domain` are modelled as plain functions of the labels. Their caching is modelled once, generically, in `Caching`.
- Domains.StrAscii, Domains.ValidAscii: these characterise the result only for ASCII labels. Non-ASCII labels depend on the IDNA parameter.
- `domaintools/data.py` is modelled only as the constants it defines. The IDN ccTLDs are their decoded Unicode names.
- `__init__.py` and `utils.py` define the same `cached_property`, and both are modelled by `Caching`.
