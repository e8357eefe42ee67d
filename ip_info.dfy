/**
 * IpInfoService: the public IP and ISP read out of the ipinfo.io JSON body by
 * the regular expression `"key"\s*:\s*"([^"]*)"`, whose first group at the
 * leftmost match is the value, and "Unknown" when nothing matches.
 */
module IpInfo {
  import opened Wrappers
  import opened Sequences
  import opened KotlinText
  import opened Http

  datatype IpIspInfo = IpIspInfo(ip: string, isp: string)

  const UNKNOWN: string := "Unknown"

  /* ----------------------------- the regular expression ----------------------------- */

  /** Where the run of `\s` characters starting at `i` ends (`\s*` is greedy). */
  function SkipSpaces(s: string, i: nat): (j: nat)
    requires i <= |s|
    ensures i <= j <= |s|
    ensures forall k :: i <= k < j ==> IsRegexSpace(s[k])
    ensures j < |s| ==> !IsRegexSpace(s[j])
    decreases |s| - i
  {
    if i < |s| && IsRegexSpace(s[i]) then SkipSpaces(s, i + 1) else i
  }

  /** The first '"' at or after `i`: where the group `[^"]*` ends. */
  function NextQuote(s: string, i: nat): (r: Option<nat>)
    requires i <= |s|
    ensures r.Some? ==> i <= r.value < |s| && s[r.value] == '"'
    ensures r.Some? ==> forall k :: i <= k < r.value ==> s[k] != '"'
    ensures r.None? ==> forall k :: i <= k < |s| ==> s[k] != '"'
    decreases |s| - i
  {
    if i == |s| then None
    else if s[i] == '"' then Some(i)
    else NextQuote(s, i + 1)
  }

  predicate NoQuote(s: string) {
    forall k :: 0 <= k < |s| ==> s[k] != '"'
  }

  predicate AllRegexSpace(s: string) {
    forall k :: 0 <= k < |s| ==> IsRegexSpace(s[k])
  }

  /** The literal head `"key"` of the pattern (the key is spliced in unescaped). */
  function Quoted(key: string): string {
    "\"" + key + "\""
  }

  /** `([^"]*)"` from index `p`: the group runs up to the next '"', which must exist. */
  function GroupFrom(body: string, p: nat): (r: Option<string>)
    requires p <= |body|
    ensures r.Some? ==> NoQuote(r.value)
  {
    match NextQuote(body, p)
    case None => None
    case Some(close) => Some(body[p..close])
  }

  /** `\s*"([^"]*)"` from index `p`. */
  function ValueFrom(body: string, p: nat): (r: Option<string>)
    requires p <= |body|
  {
    var open := SkipSpaces(body, p);
    if open == |body| || body[open] != '"' then None else GroupFrom(body, open + 1)
  }

  /** `\s*:\s*"([^"]*)"` from index `p`. */
  function ColonFrom(body: string, p: nat): (r: Option<string>)
    requires p <= |body|
  {
    var colon := SkipSpaces(body, p);
    if colon == |body| || body[colon] != ':' then None else ValueFrom(body, colon + 1)
  }

  /**
   * The group of a match of `"key"\s*:\s*"([^"]*)"` that starts at index `i`, if
   * one does. Neither `\s*` nor `[^"]*` can give back a character that lets the
   * pattern continue, so the greedy reading is the only one.
   */
  function MatchAt(body: string, key: string, i: nat): (r: Option<string>)
    requires i <= |body|
    ensures r.Some? ==> NoQuote(r.value)
  {
    if !StartsWithAt(body, Quoted(key), i) then None else ColonFrom(body, i + |Quoted(key)|)
  }

  /** `Regex.find` from index `i`: the leftmost start at or after `i` where the pattern matches. */
  function FirstMatch(body: string, key: string, i: nat): (r: Option<(nat, string)>)
    requires i <= |body|
    ensures r.Some? ==> i <= r.value.0 <= |body| && MatchAt(body, key, r.value.0) == Some(r.value.1)
    ensures r.Some? ==> forall j :: i <= j < r.value.0 ==> MatchAt(body, key, j).None?
    ensures r.None? ==> forall j :: i <= j <= |body| ==> MatchAt(body, key, j).None?
    decreases |body| - i
  {
    match MatchAt(body, key, i)
    case Some(v) => Some((i, v))
    case None => if i == |body| then None else FirstMatch(body, key, i + 1)
  }

  /**
   * `find(key)`: the group of the leftmost match, or "Unknown". The value read
   * never holds a '"', so an escaped quote `\"` ends it early.
   */
  function Find(body: string, key: string): (r: string)
    ensures NoQuote(r)
    ensures (forall j :: 0 <= j <= |body| ==> MatchAt(body, key, j).None?) ==> r == UNKNOWN
  {
    match FirstMatch(body, key, 0)
    case Some((_, v)) => v
    case None => UNKNOWN
  }

  /** `find` returns the group of the leftmost start where the pattern matches. */
  lemma FindLeftmost(body: string, key: string, j: nat)
    requires j <= |body| && MatchAt(body, key, j).Some?
    requires forall j' :: 0 <= j' < j ==> MatchAt(body, key, j').None?
    ensures Find(body, key) == MatchAt(body, key, j).value
  {
    var r := FirstMatch(body, key, 0);
    assert r.Some?;
    assert r.value.0 == j;
  }

  /* ----------------------------- getIpAndIsp ----------------------------- */

  /**
   * `getIpAndIsp`: an unsuccessful response, or a call that throws, ends in an
   * exception; otherwise the "ip" and "org" values of the body (an absent body
   * reads as "").
   */
  function GetIpAndIsp(x: Exchange): (r: Result<IpIspInfo>)
    ensures r.Failure? <==> x.Threw? || !x.successful
    ensures r.Success? ==> r.value.ip == Find(BodyText(x.body), "ip") && r.value.isp == Find(BodyText(x.body), "org")
  {
    match x
    case Threw => Failure("I/O error")
    case Response(successful, _, body) =>
      if !successful then Failure("Failed to get IP info")
      else
        var text := BodyText(body);
        Success(IpIspInfo(Find(text, "ip"), Find(text, "org")))
  }

  /* ----------------------------- lemmas ----------------------------- */


  /**
   * A body text from one field on: `"key"<sp1>:<sp2>"value"` followed by `rest`
   * (nested to the right, the way the pattern reads it).
   */
  function FieldThen(key: string, sp1: string, sp2: string, value: string, rest: string): string {
    Quoted(key) + (sp1 + (":" + (sp2 + ("\"" + (value + ("\"" + rest))))))
  }

  lemma SkipSpacesOver(s: string, i: nat, j: nat)
    requires i <= j < |s| && !IsRegexSpace(s[j])
    requires forall k :: i <= k < j ==> IsRegexSpace(s[k])
    ensures SkipSpaces(s, i) == j
    decreases j - i
  {
    if i < j { SkipSpacesOver(s, i + 1, j); }
  }

  lemma NextQuoteAt(s: string, i: nat, j: nat)
    requires i <= j < |s| && s[j] == '"'
    requires forall k :: i <= k < j ==> s[k] != '"'
    ensures NextQuote(s, i) == Some(j)
    decreases j - i
  {
    if i < j { NextQuoteAt(s, i + 1, j); }
  }

  lemma GroupOf(pre: string, value: string, rest: string)
    requires NoQuote(value)
    ensures GroupFrom(pre + (value + ("\"" + rest)), |pre|) == Some(value)
  {
    var body := pre + (value + ("\"" + rest));
    NextQuoteAt(body, |pre|, |pre| + |value|);
    assert body[|pre|..|pre| + |value|] == value;
  }

  /** `\s*:` ends at `c`, and the rest of the pattern goes on from `q`. */
  lemma ColonStep(body: string, p: nat, c: nat, q: nat)
    requires p <= c < |body| && SkipSpaces(body, p) == c && body[c] == ':' && q == c + 1
    ensures ColonFrom(body, p) == ValueFrom(body, q)
  {
  }

  /** `\s*"` ends at `o`, and the group starts at `q`. */
  lemma ValueStep(body: string, p: nat, o: nat, q: nat)
    requires p <= o < |body| && SkipSpaces(body, p) == o && body[o] == '"' && q == o + 1
    ensures ValueFrom(body, p) == GroupFrom(body, q)
  {
  }

  lemma ValueOf(pre: string, sp: string, value: string, rest: string)
    requires AllRegexSpace(sp) && NoQuote(value)
    ensures ValueFrom(pre + (sp + ("\"" + (value + ("\"" + rest)))), |pre|) == Some(value)
  {
    var t := value + ("\"" + rest);
    var body := pre + (sp + ("\"" + t));
    var o := |pre| + |sp|;
    SkipSpacesOver(body, |pre|, o);
    var pre2 := pre + (sp + "\"");
    AppendAssoc(sp, "\"", t);
    AppendAssoc(pre, sp + "\"", t);
    assert body == pre2 + t;
    GroupOf(pre2, value, rest);
    ValueStep(body, |pre|, o, |pre2|);
  }

  lemma ColonOf(pre: string, sp1: string, sp2: string, value: string, rest: string)
    requires AllRegexSpace(sp1) && AllRegexSpace(sp2) && NoQuote(value)
    ensures ColonFrom(pre + (sp1 + (":" + (sp2 + ("\"" + (value + ("\"" + rest)))))), |pre|) == Some(value)
  {
    var t := sp2 + ("\"" + (value + ("\"" + rest)));
    var body := pre + (sp1 + (":" + t));
    var c := |pre| + |sp1|;
    SkipSpacesOver(body, |pre|, c);
    var pre2 := pre + (sp1 + ":");
    AppendAssoc(sp1, ":", t);
    AppendAssoc(pre, sp1 + ":", t);
    assert body == pre2 + t;
    ValueOf(pre2, sp2, value, rest);
    ColonStep(body, |pre|, c, |pre2|);
  }

  /** Reading a field back: the field at index |lead| matches with its value as the group. */
  lemma MatchField(lead: string, key: string, sp1: string, sp2: string, value: string, rest: string)
    requires AllRegexSpace(sp1) && AllRegexSpace(sp2) && NoQuote(value)
    ensures MatchAt(lead + FieldThen(key, sp1, sp2, value, rest), key, |lead|) == Some(value)
  {
    var t := sp1 + (":" + (sp2 + ("\"" + (value + ("\"" + rest)))));
    var q := Quoted(key);
    var body := lead + (q + t);
    var pre := lead + q;
    AppendAssoc(lead, q, t);
    assert body == pre + t;
    assert StartsWithAt(body, q, |lead|) by {
      assert body[|lead|..|lead| + |q|] == q;
    }
    ColonOf(pre, sp1, sp2, value, rest);
    assert ColonFrom(body, |pre|) == Some(value) by {
      assert ColonFrom(pre + t, |pre|) == Some(value);
    }
    MatchAtQuoted(body, key, |lead|, |pre|);
    assert FieldThen(key, sp1, sp2, value, rest) == q + t;
  }

  lemma MatchAtQuoted(body: string, key: string, i: nat, p: nat)
    requires StartsWithAt(body, Quoted(key), i) && p == i + |Quoted(key)|
    ensures MatchAt(body, key, i) == ColonFrom(body, p)
  {
  }

  /** A match starts with '"', the key and '"'. */
  lemma MatchStartsQuoted(body: string, key: string, j: nat)
    requires j <= |body| && MatchAt(body, key, j).Some?
    ensures j + |key| + 2 <= |body| && body[j] == '"' && body[j + 1 + |key|] == '"'
    ensures forall k :: 0 <= k < |key| ==> body[j + 1 + k] == key[k]
  {
    var q := Quoted(key);
    var w := body[j..j + |q|];
    assert w == q;
    assert body[j] == w[0] == q[0];
    assert body[j + 1 + |key|] == w[1 + |key|] == q[1 + |key|];
    forall k | 0 <= k < |key| ensures body[j + 1 + k] == key[k] {
      assert body[j + 1 + k] == w[1 + k] == q[1 + k];
    }
  }

  lemma NoMatchWithoutQuote(body: string, key: string, j: nat)
    requires j < |body| && body[j] != '"'
    ensures MatchAt(body, key, j).None?
  {
    if MatchAt(body, key, j).Some? {
      MatchStartsQuoted(body, key, j);
    }
  }

  /**
   * The round trip of a JSON body whose first quote opens the field: `find`
   * returns the field's value, whatever follows it.
   */
  lemma FindField(lead: string, key: string, sp1: string, sp2: string, value: string, rest: string)
    requires NoQuote(lead) && AllRegexSpace(sp1) && AllRegexSpace(sp2) && NoQuote(value)
    ensures Find(lead + FieldThen(key, sp1, sp2, value, rest), key) == value
  {
    var body := lead + FieldThen(key, sp1, sp2, value, rest);
    MatchField(lead, key, sp1, sp2, value, rest);
    forall j | 0 <= j < |lead| ensures MatchAt(body, key, j).None? {
      NoMatchWithoutQuote(body, key, j);
    }
    FindLeftmost(body, key, |lead|);
  }

  /**
   * An escaped quote inside a value ends it: in `"key":"a\"b…` the field text
   * up to the escaped quote is `FieldThen(key, "", "", a + "\\", b…)`, so the
   * value read is `a\`.
   */
  lemma EscapedQuoteTruncates(lead: string, key: string, a: string, b: string)
    requires NoQuote(lead) && NoQuote(a)
    ensures Find(lead + FieldThen(key, "", "", a + "\\", b), key) == a + "\\"
  {
    assert NoQuote(a + "\\");
    FindField(lead, key, "", "", a + "\\", b);
  }

  /** A value that is not a string (a number, `null`, an object) gives no match at its key. */
  lemma NonStringValueNoMatch(lead: string, key: string, sp1: string, sp2: string, tail: string)
    requires AllRegexSpace(sp1) && AllRegexSpace(sp2)
    requires tail != [] && tail[0] != '"' && !IsRegexSpace(tail[0])
    ensures MatchAt(lead + (Quoted(key) + (sp1 + (":" + (sp2 + tail)))), key, |lead|).None?
  {
    var q := Quoted(key);
    var t := sp2 + tail;
    var body := lead + (q + (sp1 + (":" + t)));
    var pre := lead + q;
    AppendAssoc(lead, q, sp1 + (":" + t));
    assert body == pre + (sp1 + (":" + t));
    var c := |pre| + |sp1|;
    SkipSpacesOver(body, |pre|, c);
    var pre2 := pre + (sp1 + ":");
    AppendAssoc(sp1, ":", t);
    AppendAssoc(pre, sp1 + ":", t);
    assert body == pre2 + t;
    ColonStep(body, |pre|, c, |pre2|);
    var o := |pre2| + |sp2|;
    assert body[o] == tail[0];
    SkipSpacesOver(body, |pre2|, o);
    assert ValueFrom(body, |pre2|).None?;
    if StartsWithAt(body, q, |lead|) {
      MatchAtQuoted(body, key, |lead|, |pre|);
    }
  }

  /** The key must follow a '"' directly: no start inside `"zip"` matches the key "ip". */
  lemma ZipIsNotIp(lead: string, rest: string, j: nat)
    requires |lead| <= j < |lead| + 4
    ensures MatchAt(lead + ("\"zip\"" + rest), "ip", j).None?
  {
    var body := lead + ("\"zip\"" + rest);
    assert body[|lead|] == '"' && body[|lead| + 1] == 'z' && body[|lead| + 2] == 'i' && body[|lead| + 3] == 'p';
    if MatchAt(body, "ip", j).Some? {
      MatchStartsQuoted(body, "ip", j);
    }
  }

  /** Neither field that `getIpAndIsp` returns ever holds a '"'. */
  lemma GetIpAndIspNoQuote(x: Exchange)
    requires GetIpAndIsp(x).Success?
    ensures NoQuote(GetIpAndIsp(x).value.ip) && NoQuote(GetIpAndIsp(x).value.isp)
  {
  }
}
