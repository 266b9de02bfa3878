/** `_check_patterns`, the existential pattern match both generations use to
    filter policies and interfaces (dcnm/heirarchy/DCNM_utils.py and a
    verbatim copy in dcnm/interfaces/dcnm_interfaces.py). Regular
    expression search is an oracle. */
module Patterns {
  import opened Wrappers
  import opened Errors

  /** `re.compile(regex, re.MULTILINE).search(text)` found a match. */
  type Search = (string, string) -> bool

  /** The value being matched: `None`, a string, a dictionary, or anything
      else. */
  datatype Subject = SNone | SStr(s: string) | SDict(d: map<string, string>) | SOther

  /** One entry of the pattern collection: a regex, a list or tuple (meant
      as `(key, regex)`; `tuple` tells which), or anything else. */
  datatype Pattern = PStr(p: string) | PSeq(parts: seq<string>, tuple: bool) | PBad

  /** The IndexError message of `pattern[1]` on a short list or tuple. */
  function ShortMsg(tuple: bool): string {
    if tuple then TupleIndexMsg else ListIndexMsg
  }

  /** The pattern collection: a list or tuple, or anything else. */
  datatype Patterns = PList(ps: seq<Pattern>) | PNotList

  const SubjectTypeMsg := "string_to_check must be a string or a dictionary"
  const PatternTypeMsg := "pattern must be a string or tuple of two strings"
  /** Subscripting a compiled regular expression. */
  const CompiledKeyMsg := "'re.Pattern' object is not subscriptable"

  /** One pattern against a string or dictionary subject, as written. A
      string pattern searches the subject (searching a dictionary raises
      TypeError). A tuple pattern rebinds `pattern` to the compiled
      regex and then subscripts that compiled object, which raises
      TypeError; one shorter than two raises IndexError first, with the
      message of its type. */
  function MatchOne(search: Search, pat: Pattern, subject: Subject): (r: Result<bool, Error>)
    requires subject.SStr? || subject.SDict?
    ensures pat.PSeq? ==> r.Err? && (r.error.TypeError? || r.error.IndexError?)
    ensures pat.PSeq? && |pat.parts| < 2 ==> r == Err(IndexError(if pat.tuple then TupleIndexMsg else ListIndexMsg))
    ensures r.Err? ==> r.error.ParameterError? || r.error.TypeError? || r.error.IndexError?
  {
    match pat
    case PStr(p) => if subject.SStr? then Ok(search(p, subject.s)) else Err(TypeError(NotStringMsg))
    case PSeq(parts, tuple) => if |parts| < 2 then Err(IndexError(ShortMsg(tuple))) else Err(TypeError(CompiledKeyMsg))
    case PBad => Err(ParameterError(PatternTypeMsg))
  }

  /** The `for pattern in patterns` loop: the first match returns True, the
      first failure propagates, and running out returns False. */
  function FirstMatch(search: Search, ps: seq<Pattern>, subject: Subject): (r: Result<bool, Error>)
    requires subject.SStr? || subject.SDict?
    ensures r.Err? ==> r.error.ParameterError? || r.error.TypeError? || r.error.IndexError?
    decreases |ps|
  {
    if |ps| == 0 then Ok(false)
    else
      match MatchOne(search, ps[0], subject)
      case Err(e) => Err(e)
      case Ok(true) => Ok(true)
      case Ok(false) => FirstMatch(search, ps[1..], subject)
  }

  /** `_check_patterns` as written; `notListMsg` is the one message in which
      the two copies differ. */
  function CheckPatterns(search: Search, patterns: Patterns, subject: Subject, notListMsg: string)
    : (r: Result<bool, Error>)
    ensures subject.SNone? ==> r == Ok(false)
    ensures subject.SOther? ==> r == Err(ParameterError(SubjectTypeMsg))
    ensures (subject.SStr? || subject.SDict?) && patterns.PNotList? ==> r == Err(ParameterError(notListMsg))
    ensures r.Err? ==> r.error.ParameterError? || r.error.TypeError? || r.error.IndexError?
  {
    match subject
    case SNone => Ok(false)
    case SOther => Err(ParameterError(SubjectTypeMsg))
    case _ =>
      match patterns
      case PNotList => Err(ParameterError(notListMsg))
      case PList(ps) => FirstMatch(search, ps, subject)
  }

  predicate AllStr(ps: seq<Pattern>) {
    forall k :: 0 <= k < |ps| ==> ps[k].PStr?
  }

  /** Against a string, a list of regexes matches exactly when one of them
      is found in the string. */
  lemma {:induction false} StrPatternsExist(search: Search, ps: seq<Pattern>, s: string, msg: string)
    requires AllStr(ps)
    ensures CheckPatterns(search, PList(ps), SStr(s), msg) == Ok(exists k :: 0 <= k < |ps| && search(ps[k].p, s))
  {
    FirstMatchStr(search, ps, s);
  }

  lemma {:induction false} FirstMatchStr(search: Search, ps: seq<Pattern>, s: string)
    requires AllStr(ps)
    ensures FirstMatch(search, ps, SStr(s)) == Ok(exists k :: 0 <= k < |ps| && search(ps[k].p, s))
    decreases |ps|
  {
    if |ps| > 0 {
      FirstMatchStr(search, ps[1..], s);
      if !search(ps[0].p, s) {
        if exists k :: 0 <= k < |ps| && search(ps[k].p, s) {
          var k :| 0 <= k < |ps| && search(ps[k].p, s);
          assert ps[1..][k - 1] == ps[k];
        }
      }
    }
  }

  /** As written, a dictionary subject with a `(key, regex)` pattern at the
      head of the list raises instead of matching. */
  lemma PairPatternRaises(search: Search, key: string, regex: string, rest: seq<Pattern>, d: map<string, string>, msg: string)
    ensures CheckPatterns(search, PList([PSeq([key, regex], true)] + rest), SDict(d), msg) == Err(TypeError(CompiledKeyMsg))
  {
  }

  /** One pattern with the tuple case as the docstring describes it: the
      regex in element one is searched in the dictionary value under the
      key in element zero. */
  function MatchOneCorrected(search: Search, pat: Pattern, subject: Subject): (r: Result<bool, Error>)
    requires subject.SStr? || subject.SDict?
    ensures pat.PSeq? && |pat.parts| >= 2 && subject.SDict? && pat.parts[0] in subject.d ==>
      r == Ok(search(pat.parts[1], subject.d[pat.parts[0]]))
    ensures pat.PStr? ==> r == MatchOne(search, pat, subject)
  {
    match pat
    case PStr(p) => if subject.SStr? then Ok(search(p, subject.s)) else Err(TypeError(NotStringMsg))
    case PSeq(parts, tuple) =>
      if |parts| < 2 then Err(IndexError(ShortMsg(tuple)))
      else if subject.SStr? then Err(TypeError(StrIndicesMsg))
      else if parts[0] in subject.d then Ok(search(parts[1], subject.d[parts[0]]))
      else Err(KeyError(parts[0]))
    case PBad => Err(ParameterError(PatternTypeMsg))
  }

  function FirstMatchCorrected(search: Search, ps: seq<Pattern>, subject: Subject): Result<bool, Error>
    requires subject.SStr? || subject.SDict?
    decreases |ps|
  {
    if |ps| == 0 then Ok(false)
    else
      match MatchOneCorrected(search, ps[0], subject)
      case Err(e) => Err(e)
      case Ok(true) => Ok(true)
      case Ok(false) => FirstMatchCorrected(search, ps[1..], subject)
  }

  /** `_check_patterns` with the tuple case corrected. */
  function CheckPatternsCorrected(search: Search, patterns: Patterns, subject: Subject, notListMsg: string)
    : (r: Result<bool, Error>)
    ensures subject.SNone? ==> r == Ok(false)
    ensures subject.SOther? ==> r == Err(ParameterError(SubjectTypeMsg))
    ensures (subject.SStr? || subject.SDict?) && patterns.PNotList? ==> r == Err(ParameterError(notListMsg))
  {
    match subject
    case SNone => Ok(false)
    case SOther => Err(ParameterError(SubjectTypeMsg))
    case _ =>
      match patterns
      case PNotList => Err(ParameterError(notListMsg))
      case PList(ps) => FirstMatchCorrected(search, ps, subject)
  }

  /** Every pattern is a `(key, regex)` pair whose key the dictionary has. */
  predicate AllPairsIn(ps: seq<Pattern>, d: map<string, string>) {
    forall k :: 0 <= k < |ps| ==> ps[k].PSeq? && |ps[k].parts| >= 2 && ps[k].parts[0] in d
  }

  /** With the correction, `(key, regex)` patterns against a dictionary match
      exactly when one regex is found in its key's value. */
  lemma {:induction false} PairPatternsExist(search: Search, ps: seq<Pattern>, d: map<string, string>, msg: string)
    requires AllPairsIn(ps, d)
    ensures CheckPatternsCorrected(search, PList(ps), SDict(d), msg)
      == Ok(exists k :: 0 <= k < |ps| && search(ps[k].parts[1], d[ps[k].parts[0]]))
  {
    FirstMatchPairs(search, ps, d);
  }

  lemma {:induction false} FirstMatchPairs(search: Search, ps: seq<Pattern>, d: map<string, string>)
    requires AllPairsIn(ps, d)
    ensures FirstMatchCorrected(search, ps, SDict(d))
      == Ok(exists k :: 0 <= k < |ps| && search(ps[k].parts[1], d[ps[k].parts[0]]))
    decreases |ps|
  {
    if |ps| > 0 {
      assert AllPairsIn(ps[1..], d) by {
        forall k | 0 <= k < |ps[1..]| ensures ps[1..][k] == ps[k + 1] {}
      }
      FirstMatchPairs(search, ps[1..], d);
      if !search(ps[0].parts[1], d[ps[0].parts[0]]) {
        if exists k :: 0 <= k < |ps| && search(ps[k].parts[1], d[ps[k].parts[0]]) {
          var k :| 0 <= k < |ps| && search(ps[k].parts[1], d[ps[k].parts[0]]);
          assert ps[1..][k - 1] == ps[k];
        }
      }
    }
  }

  /** On string patterns the correction changes nothing. */
  lemma {:induction false} CorrectedAgreesOnStr(search: Search, ps: seq<Pattern>, subject: Subject, msg: string)
    requires AllStr(ps)
    ensures CheckPatternsCorrected(search, PList(ps), subject, msg) == CheckPatterns(search, PList(ps), subject, msg)
  {
    if subject.SStr? || subject.SDict? {
      FirstMatchAgree(search, ps, subject);
    }
  }

  lemma {:induction false} FirstMatchAgree(search: Search, ps: seq<Pattern>, subject: Subject)
    requires subject.SStr? || subject.SDict?
    requires AllStr(ps)
    ensures FirstMatchCorrected(search, ps, subject) == FirstMatch(search, ps, subject)
    decreases |ps|
  {
    if |ps| > 0 {
      FirstMatchAgree(search, ps[1..], subject);
    }
  }

  // ---------------------------------------------------------------------
  // filter arguments

  /** A filter argument as callers pass it: absent, one regex, a list or
      tuple of patterns, or a value of some other type (with its
      truthiness). */
  datatype FilterArg = FNone | FStr(s: string) | FList(ps: seq<Pattern>) | FOther(truthy: bool)

  /** `if isinstance(x, str): x = [x]`. */
  function Wrapped(a: FilterArg): (r: FilterArg)
    ensures !r.FStr?
    ensures a.FStr? ==> r == FList([PStr(a.s)])
    ensures !a.FStr? ==> r == a
  {
    if a.FStr? then FList([PStr(a.s)]) else a
  }

  /** Python truthiness of the (wrapped) argument. */
  predicate Active(a: FilterArg) {
    match a
    case FNone => false
    case FStr(s) => |s| > 0
    case FList(ps) => |ps| > 0
    case FOther(t) => t
  }

  /** The argument handed to `_check_patterns` as its pattern collection. */
  function AsPatterns(a: FilterArg): (r: Patterns)
    ensures a.FList? <==> r.PList?
  {
    if a.FList? then PList(a.ps) else PNotList
  }
}
