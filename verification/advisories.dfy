/** `getParkAdvisories`: follow each advisory stub to its detail document and
    collect advisory id -> name, with two typographic characters in the name
    replaced by their ASCII look-alikes. */
module Advisories {
  import opened Assoc

  const RightSingleQuote: char := '\U{2019}'
  const EnDash: char := '\U{2013}'

  /** An advisory as the park descriptor lists it: only its `links.self.href`. */
  datatype AdvisoryStub = AdvisoryStub(selfHref: string)

  /** The fields read from an advisory's detail document. */
  datatype AdvisoryDetail = AdvisoryDetail(id: string, name: string)

  /** `s.replace(from, to)` for a single-character `from` and `to`. */
  function ReplaceChar(s: string, from: char, to: char): (r: string)
    ensures |r| == |s|
    ensures forall i :: 0 <= i < |s| ==> r[i] == (if s[i] == from then to else s[i])
    decreases |s|
  {
    if |s| == 0 then [] else [if s[0] == from then to else s[0]] + ReplaceChar(s[1..], from, to)
  }

  /** The single-character rule the two replacements amount to. */
  function AsciiPunctuation(c: char): char {
    if c == RightSingleQuote then '\'' else if c == EnDash then '-' else c
  }

  /** `name.replace(u"’", "'").replace(u"–", "-")`. */
  function NormaliseName(name: string): (r: string)
    ensures |r| == |name|
    ensures forall i :: 0 <= i < |name| ==> r[i] == AsciiPunctuation(name[i])
    ensures RightSingleQuote !in r && EnDash !in r
  {
    ReplaceChar(ReplaceChar(name, RightSingleQuote, '\''), EnDash, '-')
  }

  /** Normalising an already normalised name changes nothing. */
  lemma NormaliseIdempotent(name: string)
    ensures NormaliseName(NormaliseName(name)) == NormaliseName(name)
  {
    var once := NormaliseName(name);
    assert forall i :: 0 <= i < |once| ==> AsciiPunctuation(once[i]) == once[i];
  }

  /** Normalisation works character by character, so it distributes over
      concatenation. */
  lemma NormaliseAppend(a: string, b: string)
    ensures NormaliseName(a + b) == NormaliseName(a) + NormaliseName(b)
  {
    var l := NormaliseName(a + b);
    var r := NormaliseName(a) + NormaliseName(b);
    assert forall i :: 0 <= i < |a| ==> (a + b)[i] == a[i];
    assert forall i :: |a| <= i < |a + b| ==> (a + b)[i] == b[i - |a|];
    assert forall i :: 0 <= i < |l| ==> l[i] == r[i];
  }

  /** A name without either character is left as it is. */
  lemma NormalisePlain(s: string)
    requires RightSingleQuote !in s && EnDash !in s
    ensures NormaliseName(s) == s
  {
    var r := NormaliseName(s);
    assert forall i :: 0 <= i < |s| ==> r[i] == s[i];
  }

  /** Plain text around one right single quote and one en dash, as in
      "Guest(U+2019)s Advisory (U+2013) Test", comes out with an ASCII apostrophe and
      hyphen in their places. */
  lemma NormaliseAroundMarks(a: string, c: string, e: string)
    requires RightSingleQuote !in a && EnDash !in a
    requires RightSingleQuote !in c && EnDash !in c
    requires RightSingleQuote !in e && EnDash !in e
    ensures NormaliseName(a + [RightSingleQuote] + c + [EnDash] + e) == a + "'" + c + "-" + e
  {
    var x1 := a + [RightSingleQuote];
    var x2 := x1 + c;
    var x3 := x2 + [EnDash];
    NormalisePlain(a);
    NormalisePlain(c);
    NormalisePlain(e);
    assert NormaliseName([RightSingleQuote]) == "'" by {
      assert NormaliseName([RightSingleQuote])[0] == '\'';
    }
    assert NormaliseName([EnDash]) == "-" by {
      assert NormaliseName([EnDash])[0] == '-';
    }
    NormaliseAppend(a, [RightSingleQuote]);
    assert NormaliseName(x1) == a + "'";
    NormaliseAppend(x1, c);
    assert NormaliseName(x2) == a + "'" + c;
    NormaliseAppend(x2, [EnDash]);
    assert NormaliseName(x3) == a + "'" + c + "-";
    NormaliseAppend(x3, e);
  }

  /** The advisories dictionary built from the detail documents in stub
      order: one key per advisory id, holding the normalised name from the
      last document with that id. */
  function CollectAdvisories(details: seq<AdvisoryDetail>): (m: map<string, string>)
    ensures forall k :: k in m <==> exists i :: 0 <= i < |details| && details[i].id == k
    ensures forall k :: k in m ==> RightSingleQuote !in m[k] && EnDash !in m[k]
    ensures forall k :: k in m ==>
      exists i :: && 0 <= i < |details| && details[i].id == k
                  && m[k] == NormaliseName(details[i].name)
                  && forall j :: i < j < |details| ==> details[j].id != k
  {
    var pairs := seq(|details|, i requires 0 <= i < |details| => (details[i].id, NormaliseName(details[i].name)));
    AdvisoryFacts(details, pairs);
    Build(pairs)
  }

  lemma {:induction false} AdvisoryFacts(details: seq<AdvisoryDetail>, pairs: seq<(string, string)>)
    requires |pairs| == |details|
    requires forall i :: 0 <= i < |details| ==> pairs[i] == (details[i].id, NormaliseName(details[i].name))
    ensures var m := Build(pairs);
      && (forall k :: k in m <==> exists i :: 0 <= i < |details| && details[i].id == k)
      && (forall k :: k in m ==> RightSingleQuote !in m[k] && EnDash !in m[k])
      && forall k :: k in m ==>
           exists i :: && 0 <= i < |details| && details[i].id == k
                       && m[k] == NormaliseName(details[i].name)
                       && forall j :: i < j < |details| ==> details[j].id != k
  {
    var m := Build(pairs);
    forall k | exists i :: 0 <= i < |details| && details[i].id == k
      ensures k in m
    {
      var i :| 0 <= i < |details| && details[i].id == k;
      assert pairs[i].0 == k;
    }
    forall k | k in m
      ensures exists i :: && 0 <= i < |details| && details[i].id == k
                          && m[k] == NormaliseName(details[i].name)
                          && forall j :: i < j < |details| ==> details[j].id != k
    {
      var i :| 0 <= i < |pairs| && pairs[i] == (k, m[k])
               && forall j :: i < j < |pairs| ==> pairs[j].0 != k;
      assert details[i].id == k;
    }
  }

  /** `getParkAdvisories`: follow every stub's self link (the request is the
      parameter `detailAt`), then collect the detail documents in stub order. */
  function ParkAdvisories(stubs: seq<AdvisoryStub>, detailAt: string -> AdvisoryDetail): (m: map<string, string>)
    ensures forall k :: k in m <==> exists i :: 0 <= i < |stubs| && detailAt(stubs[i].selfHref).id == k
    ensures forall k :: k in m ==> RightSingleQuote !in m[k] && EnDash !in m[k]
    ensures forall k :: k in m ==>
      exists i :: && 0 <= i < |stubs| && detailAt(stubs[i].selfHref).id == k
                  && m[k] == NormaliseName(detailAt(stubs[i].selfHref).name)
                  && forall j :: i < j < |stubs| ==> detailAt(stubs[j].selfHref).id != k
  {
    var details := seq(|stubs|, i requires 0 <= i < |stubs| => detailAt(stubs[i].selfHref));
    assert forall i :: 0 <= i < |stubs| ==> details[i] == detailAt(stubs[i].selfHref);
    CollectAdvisories(details)
  }
}
