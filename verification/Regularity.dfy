/**
 Exactly when the proxy signs the canonical request of the standard: when every signed header has a single
 value without sequential blanks, and no encoded parameter name continues another with a small character.
 */
module Regularity {
  import opened Text
  import opened Crypto
  import opened Headers
  import opened Signer
  import opened Service
  import Coverage
  import Query
  import QueryOrder
  import Sorting
  import Standard
  import TamperEvidence

  // ---------------------------------------------------------------- No line breaks inside the parts

  lemma {:induction false} FoldedWithin(s: string, c: char)
    requires c !in s
    ensures c !in Standard.Folded(s)
  {
    if s != "" { FoldedWithin(s[1..], c); }
  }

  lemma ValueIsLineFree(h: Headers, name: string)
    requires TamperEvidence.TextsAreVisible(h)
    ensures '\n' !in Standard.Value(h, name)
  {
    var texts := Texts(h, name);
    forall i | 0 <= i < |texts| ensures '\n' !in Standard.FoldedTrim(texts[i]) {
      TextIsLineFree(h, name, texts[i]);
      FoldedWithin(Trim(texts[i]), '\n');
    }
    JoinFree(Sorting.Map(texts, Standard.FoldedTrim), ',', '\n');
  }

  lemma TextIsLineFree(h: Headers, name: string, text: string)
    requires TamperEvidence.TextsAreVisible(h) && text in Texts(h, name)
    ensures '\n' !in text && '\n' !in Trim(text)
  {
    TextsMeans(h, name, text);
    var i :| 0 <= i < |h| && h[i] == Header(name, Some(text));
    assert IsVisible(h[i].text.value);
    TrimWithin(text, '\n');
  }

  lemma ShownIsLineFree(h: Headers, keep: string -> bool, name: string)
    requires TamperEvidence.TextsAreVisible(h) && name in Collect(h, keep)
    ensures '\n' !in Shown(Collect(h, keep))(name)
  {
    CollectMeans(h, keep, name);
    TextIsLineFree(h, name, Texts(h, name)[|Texts(h, name)| - 1]);
    TrimIsTrimmed(Texts(h, name)[|Texts(h, name)| - 1]);
  }

  lemma StandardQueryIsLineFree(pairs: seq<Query.Pair>, query: string)
    requires Standard.IsQuery(pairs, query)
    ensures '\n' !in query
  {
    var fields :| Standard.InOrder(fields, pairs) && query == Join(Sorting.Map(fields, Standard.Field), '&');
    forall i | 0 <= i < |fields| ensures '\n' !in Standard.Field(fields[i]) {
      var k := QueryOrder.Source(pairs, fields, i);
      QueryOrder.ParameterIsField(pairs[k]);
    }
    JoinFree(Sorting.Map(fields, Standard.Field), '&', '\n');
  }

  // ---------------------------------------------------------------- Equal requests have equal parts

  lemma FirstLine(a: string, s: string, b: string, t: string)
    requires '\n' !in a && '\n' !in b && a + "\n" + s == b + "\n" + t
    ensures a == b && s == t
  {
    IndexOfConcat(a, '\n', s);
    IndexOfConcat(b, '\n', t);
    assert (a + "\n" + s)[..|a|] == a && (b + "\n" + t)[..|b|] == b;
    assert (a + "\n" + s)[|a| + 1..] == s && (b + "\n" + t)[|b| + 1..] == t;
  }

  lemma SameFront(front: string, s: string, t: string)
    requires front + s == front + t
    ensures s == t
  {
    assert (front + s)[|front|..] == s && (front + t)[|front|..] == t;
  }

  lemma SameBack(s: string, t: string, back: string)
    requires s + back == t + back
    ensures s == t
  {
    assert |s| == |t|;
    assert (s + back)[..|s|] == s && (t + back)[..|t|] == t;
  }

  lemma {:induction false} LinesDetermine(names: seq<string>, f: string -> string, g: string -> string)
    requires Standard.HeaderLines(names, f) == Standard.HeaderLines(names, g)
    requires forall i :: 0 <= i < |names| ==> '\n' !in f(names[i]) && '\n' !in g(names[i])
    ensures forall i :: 0 <= i < |names| ==> f(names[i]) == g(names[i])
  {
    if names != [] {
      var name, rest := names[0], names[1..];
      assert forall i :: 0 <= i < |rest| ==> rest[i] == names[i + 1];
      LineBehindName(name, f(name), Standard.HeaderLines(rest, f));
      LineBehindName(name, g(name), Standard.HeaderLines(rest, g));
      SameFront(name + ":", f(name) + "\n" + Standard.HeaderLines(rest, f),
                g(name) + "\n" + Standard.HeaderLines(rest, g));
      FirstLine(f(name), Standard.HeaderLines(rest, f), g(name), Standard.HeaderLines(rest, g));
      LinesDetermine(rest, f, g);
      forall i | 0 <= i < |names| ensures f(names[i]) == g(names[i]) {
        if i > 0 { assert names[i] == rest[i - 1]; }
      }
    }
  }

  lemma LineBehindName(name: string, value: string, rest: string)
    ensures name + ":" + value + "\n" + rest == (name + ":") + (value + "\n" + rest)
  {
  }

  lemma RequestParts(verb: string, path: string, query: string, names: seq<string>, f: string -> string,
                     payload: string)
    ensures Standard.CanonicalRequest(verb, path, query, names, f, payload)
         == (verb + "\n" + path + "\n") + (query + "\n" + Standard.HeaderLines(names, f))
          + ("\n" + Join(names, ';') + "\n" + payload)
  {
    Regrouping(verb + "\n" + path + "\n", query, Standard.HeaderLines(names, f), Join(names, ';'), payload);
  }

  lemma Regrouping(front: string, query: string, lines: string, names: string, payload: string)
    ensures front + query + "\n" + lines + "\n" + names + "\n" + payload
         == front + (query + "\n" + lines) + ("\n" + names + "\n" + payload)
  {
  }

  lemma RequestDetermines(verb: string, path: string, q: string, q': string, names: seq<string>, f: string -> string,
                          g: string -> string, payload: string)
    requires Standard.CanonicalRequest(verb, path, q, names, f, payload)
          == Standard.CanonicalRequest(verb, path, q', names, g, payload)
    requires '\n' !in q && '\n' !in q'
    requires forall i :: 0 <= i < |names| ==> '\n' !in f(names[i]) && '\n' !in g(names[i])
    ensures q == q' && forall i :: 0 <= i < |names| ==> f(names[i]) == g(names[i])
  {
    RequestParts(verb, path, q, names, f, payload);
    RequestParts(verb, path, q', names, g, payload);
    var front, back := verb + "\n" + path + "\n", "\n" + Join(names, ';') + "\n" + payload;
    var s, t := q + "\n" + Standard.HeaderLines(names, f), q' + "\n" + Standard.HeaderLines(names, g);
    SameBack(front + s, front + t, back);
    SameFront(front, s, t);
    FirstLine(q, Standard.HeaderLines(names, f), q', Standard.HeaderLines(names, g));
    LinesDetermine(names, f, g);
  }

  // ---------------------------------------------------------------- The exact condition

  lemma ShownIsSingle(h: Headers, keep: string -> bool, name: string)
    requires name in Collect(h, keep) && Shown(Collect(h, keep))(name) == Standard.Value(h, name)
    ensures Single(h, name)
  {
    CollectMeans(h, keep, name);
    ValueMeetsStandard(h, name);
    TrimIsTrimmed(Texts(h, name)[|Texts(h, name)| - 1]);
  }

  lemma PartsAreLineFree(h: Headers, keep: string -> bool, names: seq<string>)
    requires TamperEvidence.TextsAreVisible(h) && forall n :: n in names ==> n in Collect(h, keep)
    ensures forall i :: 0 <= i < |names| ==>
      '\n' !in Shown(Collect(h, keep))(names[i]) && '\n' !in Standard.Values(h)(names[i])
  {
    forall i | 0 <= i < |names|
      ensures '\n' !in Shown(Collect(h, keep))(names[i]) && '\n' !in Standard.Values(h)(names[i])
    {
      ShownIsLineFree(h, keep, names[i]);
      ValueIsLineFree(h, names[i]);
    }
  }

  lemma CanonicalIsRegular(c: Primitives, a: AwsSign, h: Headers, keep: string -> bool, names: seq<string>)
    requires a.headers == Collect(h, keep) && NamesInOrder(names, a.headers) && TamperEvidence.TextsAreVisible(h)
    requires GetText(h, "x-amz-content-sha256") == Some(PayloadLine(c, a))
    requires Standard.IsCanonical(RequestOf(a, h), names, StandardRequest(c, a, names))
    ensures Regular(h, a.url.pairs, names)
  {
    var query :| Standard.IsQuery(a.url.pairs, query) &&
      StandardRequest(c, a, names) == Standard.CanonicalRequest(a.verb, a.url.path, query, names, Standard.Values(h),
                                                                PayloadLine(c, a));
    PartsAreLineFree(h, keep, names);
    Coverage.QueryIsLineFree(a.url.pairs);
    StandardQueryIsLineFree(a.url.pairs, query);
    RequestDetermines(a.verb, a.url.path, Query.CanonicalQuery(a.url.pairs), query, names, Shown(a.headers),
                      Standard.Values(h), PayloadLine(c, a));
    QueryOrder.QueryMeetsStandard(a.url.pairs);
    forall i | 0 <= i < |names| ensures Single(h, names[i]) {
      ShownIsSingle(h, keep, names[i]);
    }
  }

  /**
   The canonical request that is signed is that of the standard if and only if the request is regular: its
   parameter names stand apart and each signed header has a single value without sequential blanks.
   */
  lemma CanonicalExactly(c: Primitives, a: AwsSign, h: Headers, keep: string -> bool, items: seq<Item>)
    requires a.headers == Collect(h, keep) && a.headers != map[] && IterationOf(items, a.headers)
    requires TamperEvidence.TextsAreVisible(h) && GetText(h, "x-amz-content-sha256") == Some(PayloadLine(c, a))
    ensures Standard.IsCanonical(RequestOf(a, h), SortedNames(items), CanonicalRequest(c, a, items, items))
       <==> Regular(h, a.url.pairs, SortedNames(items))
  {
    var names := SortedNames(items);
    SortedNamesInOrder(items, a.headers);
    CanonicalIsStandard(c, a, items);
    if Regular(h, a.url.pairs, names) {
      RegularIsCanonical(c, a, h, keep, names);
    }
    if Standard.IsCanonical(RequestOf(a, h), names, StandardRequest(c, a, names)) {
      CanonicalIsRegular(c, a, h, keep, names);
    }
  }
}
