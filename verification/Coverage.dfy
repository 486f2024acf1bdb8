/**
 What a signature covers: the canonical request determines every part of the request that went into it.
 */
module Coverage {
  import opened Text
  import opened Crypto
  import opened Sorting
  import opened Signer
  import Hex
  import Query

  /** No part contains a line break and no header name contains a colon, as HTTP guarantees. */
  predicate LineFree(a: AwsSign) {
    && '\n' !in a.verb && '\n' !in a.url.path
    && (forall k :: k in a.headers ==> '\n' !in k && ':' !in k && '\n' !in Trim(a.headers[k]))
    && (a.payloadOverride.Some? ==> '\n' !in a.payloadOverride.value)
  }

  function Lines(items: seq<Item>): seq<string> {
    Map(SortBy(items, Name), HeaderLine)
  }

  /** The header block as lines; an empty block is one empty line. */
  function Block(items: seq<Item>): (b: seq<string>)
    ensures |b| >= 1
  {
    if items == [] then [""] else (SortKeepsSize(items); Lines(items))
  }

  function Parts(c: Primitives, a: AwsSign, items: seq<Item>): seq<string> {
    Front(a) + Block(items) + ["", SignedHeaders(items), PayloadLine(c, a)]
  }

  lemma SortKeepsSize(items: seq<Item>)
    ensures |SortBy(items, Name)| == |items|
  {
    SortFacts(items, Name);
    assert |multiset(SortBy(items, Name))| == |multiset(items)|;
  }

  lemma JoinOne(s: string)
    ensures Join([s], '\n') == s
  {
  }

  /** The canonical request is its parts, one per line. */
  lemma CanonicalIsParts(c: Primitives, a: AwsSign, items: seq<Item>)
    ensures CanonicalRequest(c, a, items, items) == Join(Parts(c, a, items), '\n')
  {
    var front := Front(a);
    var back := ["", SignedHeaders(items), PayloadLine(c, a)];
    var block := Block(items);
    SortKeepsSize(items);
    assert Join(block, '\n') == CanonicalHeaders(items);
    ThreeParts(front, block, back);
    ThreeParts(front, [CanonicalHeaders(items)], back);
    JoinOne(CanonicalHeaders(items));
    assert front + [CanonicalHeaders(items)] + back
        == [a.verb, a.url.path, Query.CanonicalQuery(a.url.pairs), CanonicalHeaders(items), "",
            SignedHeaders(items), PayloadLine(c, a)];
  }

  lemma ThreeParts(front: seq<string>, block: seq<string>, back: seq<string>)
    requires |front| >= 1 && |block| >= 1 && |back| >= 1
    ensures Join(front + block + back, '\n')
         == Join(front, '\n') + ['\n'] + Join(block, '\n') + ['\n'] + Join(back, '\n')
  {
    JoinAppend(front + block, back, '\n');
    JoinAppend(front, block, '\n');
  }

  lemma QueryIsLineFree(pairs: seq<Query.Pair>)
    ensures '\n' !in Query.CanonicalQuery(pairs)
  {
    var strings := Map(pairs, Query.Parameter);
    SortFacts(strings, Self);
    forall i | 0 <= i < |Sort(strings)| ensures '\n' !in Sort(strings)[i] {
      assert Sort(strings)[i] in multiset(strings);
      var j :| 0 <= j < |strings| && strings[j] == Sort(strings)[i];
      Query.ParameterShape(pairs[j]);
    }
    JoinFree(Sort(strings), '&', '\n');
  }

  lemma BlockIsLineFree(a: AwsSign, items: seq<Item>)
    requires LineFree(a) && IterationOf(items, a.headers)
    ensures FreeOf(Block(items), '\n')
  {
    forall i | 0 <= i < |Lines(items)| ensures '\n' !in Lines(items)[i] {
      SortedItemsAreHeaders(a, items, i);
    }
  }

  lemma SignedIsLineFree(a: AwsSign, items: seq<Item>)
    requires LineFree(a) && IterationOf(items, a.headers)
    ensures '\n' !in SignedHeaders(items)
  {
    var names := Map(items, Name);
    SortFacts(names, Self);
    forall i | 0 <= i < |Sort(names)| ensures '\n' !in Sort(names)[i] {
      assert Sort(names)[i] in multiset(names);
      var j :| 0 <= j < |names| && names[j] == Sort(names)[i];
      assert (items[j].0, items[j].1) in items;
    }
    JoinFree(Sort(names), ';', '\n');
  }

  lemma LowerHexIsLineFree(s: string)
    requires Hex.IsLowerHex(s)
    ensures '\n' !in s
  {
  }

  lemma PayloadIsLineFree(c: Primitives, a: AwsSign)
    requires LineFree(a)
    ensures '\n' !in PayloadLine(c, a)
  {
    LowerHexIsLineFree(Digest(c, a.body));
  }

  lemma FreeOfAppend(a: seq<string>, b: seq<string>, c: char)
    requires FreeOf(a, c) && FreeOf(b, c)
    ensures FreeOf(a + b, c)
  {
  }

  lemma FreeOfThree(x: string, y: string, z: string, c: char)
    requires c !in x && c !in y && c !in z
    ensures FreeOf([x, y, z], c)
  {
  }

  function Front(a: AwsSign): seq<string> {
    [a.verb, a.url.path, Query.CanonicalQuery(a.url.pairs)]
  }

  lemma PartsAreLineFree(c: Primitives, a: AwsSign, items: seq<Item>)
    requires LineFree(a) && IterationOf(items, a.headers)
    ensures FreeOf(Parts(c, a, items), '\n')
  {
    QueryIsLineFree(a.url.pairs);
    BlockIsLineFree(a, items);
    SignedIsLineFree(a, items);
    PayloadIsLineFree(c, a);
    FreeOfThree(a.verb, a.url.path, Query.CanonicalQuery(a.url.pairs), '\n');
    FreeOfThree("", SignedHeaders(items), PayloadLine(c, a), '\n');
    FreeOfAppend(Front(a), Block(items), '\n');
    FreeOfAppend(Front(a) + Block(items), ["", SignedHeaders(items), PayloadLine(c, a)], '\n');
  }

  lemma CutParts<T>(a: seq<T>, m: seq<T>, b: seq<T>, a': seq<T>, m': seq<T>, b': seq<T>)
    requires a + m + b == a' + m' + b' && |a| == |a'| && |b| == |b'|
    ensures a == a' && m == m' && b == b'
  {
    var s, s' := a + m + b, a' + m' + b';
    assert |m| == |m'|;
    assert s[..|a|] == a && s'[..|a|] == a';
    assert s[|a|..|a| + |m|] == m && s'[|a|..|a| + |m|] == m';
    assert s[|a| + |m|..] == b && s'[|a| + |m|..] == b';
  }

  lemma LineDetermines(x: Item, y: Item)
    requires ':' !in x.0 && ':' !in y.0 && HeaderLine(x) == HeaderLine(y)
    ensures x.0 == y.0 && Trim(x.1) == Trim(y.1)
  {
    IndexOfConcat(x.0, ':', Trim(x.1));
    IndexOfConcat(y.0, ':', Trim(y.1));
    var s := HeaderLine(x);
    assert s[..|x.0|] == x.0 && s[..|y.0|] == y.0;
    assert s[|x.0| + 1..] == Trim(x.1) && s[|y.0| + 1..] == Trim(y.1);
  }

  /** Equal blocks come from the same headers. */
  lemma BlockCovers(a: AwsSign, b: AwsSign, items: seq<Item>, items': seq<Item>, k: string)
    requires LineFree(a) && LineFree(b) && IterationOf(items, a.headers) && IterationOf(items', b.headers)
    requires Block(items) == Block(items') && k in a.headers
    ensures k in b.headers && Trim(a.headers[k]) == Trim(b.headers[k])
  {
    var x := (k, a.headers[k]);
    assert x in items;
    SortFacts(items, Name);
    SortKeepsSize(items);
    SortKeepsSize(items');
    assert x in multiset(SortBy(items, Name));
    var i :| 0 <= i < |SortBy(items, Name)| && SortBy(items, Name)[i] == x;
    assert Block(items)[i] == HeaderLine(x) != "";
    assert items' != [];
    SortedItemsAreHeaders(b, items', i);
    LineDetermines(x, SortBy(items', Name)[i]);
  }

  lemma HeadersCovered(a: AwsSign, b: AwsSign, items: seq<Item>, items': seq<Item>)
    requires LineFree(a) && LineFree(b) && IterationOf(items, a.headers) && IterationOf(items', b.headers)
    requires Block(items) == Block(items')
    ensures a.headers.Keys == b.headers.Keys
    ensures forall k :: k in a.headers ==> Trim(a.headers[k]) == Trim(b.headers[k])
  {
    forall k | k in a.headers ensures k in b.headers && Trim(a.headers[k]) == Trim(b.headers[k]) {
      BlockCovers(a, b, items, items', k);
    }
    forall k | k in b.headers ensures k in a.headers {
      BlockCovers(b, a, items', items, k);
    }
  }

  lemma PartsOfCanonical(c: Primitives, a: AwsSign, items: seq<Item>)
    requires LineFree(a) && IterationOf(items, a.headers)
    ensures Split(CanonicalRequest(c, a, items, items), '\n') == Parts(c, a, items)
  {
    CanonicalIsParts(c, a, items);
    PartsAreLineFree(c, a, items);
    SplitJoin(Parts(c, a, items), '\n');
  }

  lemma EqualPartsAgree(c: Primitives, a: AwsSign, b: AwsSign, items: seq<Item>, items': seq<Item>)
    requires Parts(c, a, items) == Parts(c, b, items')
    ensures a.verb == b.verb && a.url.path == b.url.path
    ensures Query.CanonicalQuery(a.url.pairs) == Query.CanonicalQuery(b.url.pairs)
    ensures Block(items) == Block(items') && PayloadLine(c, a) == PayloadLine(c, b)
  {
    var back, back' := ["", SignedHeaders(items), PayloadLine(c, a)], ["", SignedHeaders(items'), PayloadLine(c, b)];
    CutParts(Front(a), Block(items), back, Front(b), Block(items'), back');
    assert Front(a)[0] == Front(b)[0] && Front(a)[1] == Front(b)[1] && Front(a)[2] == Front(b)[2];
    assert back[2] == back'[2];
  }

  /**
   Two requests with the same canonical request agree in method, path, query parameters (as a multiset),
   headers, and payload line: a signature made for one is not a signature of a different request.
   */
  lemma CanonicalRequestCovers(c: Primitives, a: AwsSign, b: AwsSign, items: seq<Item>, items': seq<Item>)
    requires LineFree(a) && LineFree(b) && IterationOf(items, a.headers) && IterationOf(items', b.headers)
    requires CanonicalRequest(c, a, items, items) == CanonicalRequest(c, b, items', items')
    ensures a.verb == b.verb && a.url.path == b.url.path && multiset(a.url.pairs) == multiset(b.url.pairs)
    ensures a.headers.Keys == b.headers.Keys
    ensures forall k :: k in a.headers ==> Trim(a.headers[k]) == Trim(b.headers[k])
    ensures PayloadLine(c, a) == PayloadLine(c, b)
  {
    PartsOfCanonical(c, a, items);
    PartsOfCanonical(c, b, items');
    EqualPartsAgree(c, a, b, items, items');
    Query.CanonicalDetermines(a.url.pairs, b.url.pairs);
    HeadersCovered(a, b, items, items');
  }
}
