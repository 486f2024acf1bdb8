/**
 Request headers: the ordered multimap of the HTTP library, and the map a signer collects from it.
 */
module Headers {
  import opened Text

  /** One header: a lower-case name, and its text unless the value is not visible ASCII. */
  datatype Header = Header(name: string, text: Option<string>)

  type Headers = seq<Header>

  const AUTHORIZATION := "authorization"

  /** `get`: the first value of a name. */
  function Get(h: Headers, name: string): Option<Header> {
    if h == [] then None else if h[0].name == name then Some(h[0]) else Get(h[1..], name)
  }

  /** `get(..).to_str()`: the text of the first value. */
  function GetText(h: Headers, name: string): Option<string> {
    match Get(h, name)
    case None => None
    case Some(header) => header.text
  }

  /** `remove`: all values of a name. */
  function Remove(h: Headers, name: string): Headers {
    if h == [] then [] else if h[0].name == name then Remove(h[1..], name) else [h[0]] + Remove(h[1..], name)
  }

  /** What a header value can hold to be read as text: visible ASCII, blanks and tabs. */
  predicate IsVisible(s: string) {
    forall i :: 0 <= i < |s| ==> 0x20 <= s[i] as int < 0x7F || s[i] == '\t'
  }

  /** `HeaderValue::to_str`. */
  function ToText(value: string): Option<string> {
    if IsVisible(value) then Some(value) else None
  }

  /** `HeaderValue::from_str` accepts it: no control character except the tab. */
  predicate IsHeaderValue(value: string) {
    forall i :: 0 <= i < |value| ==> (value[i] as int >= 0x20 && value[i] as int != 0x7F) || value[i] == '\t'
  }

  /** `insert`: the new value takes the place of all old ones. */
  function Insert(h: Headers, name: string, text: Option<string>): Headers {
    if h == [] then [Header(name, text)]
    else if h[0].name == name then [Header(name, text)] + Remove(h[1..], name)
    else [h[0]] + Insert(h[1..], name, text)
  }

  lemma {:induction false} GetAfterRemove(h: Headers, name: string, other: string)
    ensures Get(Remove(h, name), other) == if other == name then None else Get(h, other)
  {
    if h != [] { GetAfterRemove(h[1..], name, other); }
  }

  lemma {:induction false} GetAfterInsert(h: Headers, name: string, text: Option<string>, other: string)
    ensures Get(Insert(h, name, text), other) == if other == name then Some(Header(name, text)) else Get(h, other)
  {
    if h != [] {
      if h[0].name == name {
        GetAfterRemove(h[1..], name, other);
        assert Insert(h, name, text)[1..] == Remove(h[1..], name);
      } else {
        GetAfterInsert(h[1..], name, text, other);
        assert Insert(h, name, text)[1..] == Insert(h[1..], name, text);
      }
    }
  }

  /**
   The map collected from the headers: kept names with their trimmed text, values that are not text left
   out, and of several values of one name the last.
   */
  function Collect(h: Headers, keep: string -> bool): map<string, string> {
    if h == [] then map[]
    else
      var last := h[|h| - 1];
      var before := Collect(h[..|h| - 1], keep);
      if keep(last.name) && last.text.Some? then before[last.name := Trim(last.text.value)] else before
  }

  lemma {:induction false} CollectKeepsKept(h: Headers, keep: string -> bool)
    ensures forall k :: k in Collect(h, keep) ==> keep(k)
    decreases |h|
  {
    if h != [] { CollectKeepsKept(h[..|h| - 1], keep); }
  }

  /** Keeping only names that were collected anyway collects the same map. */
  lemma {:induction false} CollectWithin(h: Headers, keep: string -> bool, narrow: string -> bool)
    requires forall k :: k in Collect(h, keep) ==> narrow(k)
    requires forall k :: narrow(k) ==> keep(k)
    ensures Collect(h, narrow) == Collect(h, keep)
    decreases |h|
  {
    if h != [] {
      CollectWithin(h[..|h| - 1], keep, narrow);
    }
  }

  lemma {:induction false} CollectAppend(a: Headers, b: Headers, keep: string -> bool)
    ensures Collect(a + b, keep) == Collect(a, keep) + Collect(b, keep)
    decreases |b|
  {
    if b == [] {
      assert a + b == a;
    } else {
      assert (a + b)[..|a + b| - 1] == a + b[..|b| - 1];
      CollectAppend(a, b[..|b| - 1], keep);
    }
  }

  /** A header whose name is not kept can be inserted or removed without changing the collected map. */
  lemma {:induction false} CollectIgnoresRemove(h: Headers, name: string, keep: string -> bool)
    requires !keep(name)
    ensures Collect(Remove(h, name), keep) == Collect(h, keep)
  {
    if h != [] {
      assert h == [h[0]] + h[1..];
      CollectAppend([h[0]], h[1..], keep);
      CollectIgnoresRemove(h[1..], name, keep);
      if h[0].name != name { CollectAppend([h[0]], Remove(h[1..], name), keep); }
    }
  }

  lemma {:induction false} CollectIgnoresInsert(h: Headers, name: string, text: Option<string>, keep: string -> bool)
    requires !keep(name)
    ensures Collect(Insert(h, name, text), keep) == Collect(h, keep)
  {
    var own := [Header(name, text)];
    assert Collect(own, keep) == map[];
    if h != [] {
      assert h == [h[0]] + h[1..];
      CollectAppend([h[0]], h[1..], keep);
      if h[0].name == name {
        CollectAppend(own, Remove(h[1..], name), keep);
        CollectIgnoresRemove(h[1..], name, keep);
      } else {
        CollectAppend([h[0]], Insert(h[1..], name, text), keep);
        CollectIgnoresInsert(h[1..], name, text, keep);
      }
    }
  }

  predicate AllNames(h: Headers, ok: string -> bool) {
    forall i :: 0 <= i < |h| ==> ok(h[i].name)
  }

  lemma {:induction false} CollectNames(h: Headers, keep: string -> bool, ok: string -> bool)
    requires AllNames(h, ok)
    ensures forall k :: k in Collect(h, keep) ==> ok(k)
    decreases |h|
  {
    if h != [] { CollectNames(h[..|h| - 1], keep, ok); }
  }

  lemma {:induction false} InsertNames(h: Headers, name: string, text: Option<string>, ok: string -> bool)
    requires AllNames(h, ok) && ok(name)
    ensures AllNames(Insert(h, name, text), ok)
  {
    if h != [] {
      if h[0].name == name { RemoveNames(h[1..], name, ok); } else { InsertNames(h[1..], name, text, ok); }
    }
  }

  lemma {:induction false} RemoveNames(h: Headers, name: string, ok: string -> bool)
    requires AllNames(h, ok)
    ensures AllNames(Remove(h, name), ok)
  {
    if h != [] { RemoveNames(h[1..], name, ok); }
  }

  // ---------------------------------------------------------------- What the functions mean

  /** `get_all(..)` as text: all readable values of a name, in order. */
  function Texts(h: Headers, name: string): seq<string> {
    if h == [] then []
    else
      var last := h[|h| - 1];
      Texts(h[..|h| - 1], name) + (if last.name == name && last.text.Some? then [last.text.value] else [])
  }

  /** The readable values of a name stand in its fields. */
  lemma {:induction false} TextsMeans(h: Headers, name: string, text: string)
    ensures text in Texts(h, name) <==> Header(name, Some(text)) in h
    decreases |h|
  {
    if h != [] {
      TextsMeans(h[..|h| - 1], name, text);
      assert h == h[..|h| - 1] + [h[|h| - 1]];
    }
  }

  /** A name is collected when it is kept and has a readable value; of several the last one counts, trimmed. */
  lemma {:induction false} CollectMeans(h: Headers, keep: string -> bool, name: string)
    ensures name in Collect(h, keep) <==> keep(name) && Texts(h, name) != []
    ensures name in Collect(h, keep) ==> Collect(h, keep)[name] == Trim(Texts(h, name)[|Texts(h, name)| - 1])
    decreases |h|
  {
    if h != [] { CollectMeans(h[..|h| - 1], keep, name); }
  }

  /** `get` finds the first field of a name. */
  lemma {:induction false} GetIsFirst(h: Headers, name: string, i: nat)
    requires i < |h| && h[i].name == name && forall j :: 0 <= j < i ==> h[j].name != name
    ensures Get(h, name) == Some(h[i])
  {
    if i > 0 {
      assert h[1..][i - 1] == h[i] && forall j :: 0 <= j < i - 1 ==> h[1..][j] == h[j + 1];
      GetIsFirst(h[1..], name, i - 1);
    }
  }

  lemma {:induction false} TextsAppend(a: Headers, b: Headers, name: string)
    ensures Texts(a + b, name) == Texts(a, name) + Texts(b, name)
    decreases |b|
  {
    if b == [] {
      assert a + b == a;
    } else {
      assert (a + b)[..|a + b| - 1] == a + b[..|b| - 1];
      TextsAppend(a, b[..|b| - 1], name);
    }
  }

  lemma TextsOfOne(header: Header, name: string)
    ensures Texts([header], name) == if header.name == name && header.text.Some? then [header.text.value] else []
  {
    assert [header][..0] == [];
  }

  lemma TextsFirst(h: Headers, name: string)
    requires h != []
    ensures Texts(h, name)
         == (if h[0].name == name && h[0].text.Some? then [h[0].text.value] else []) + Texts(h[1..], name)
  {
    assert h == [h[0]] + h[1..];
    TextsAppend([h[0]], h[1..], name);
    TextsOfOne(h[0], name);
  }

  lemma {:induction false} TextsAfterRemove(h: Headers, name: string, other: string)
    ensures Texts(Remove(h, name), other) == if other == name then [] else Texts(h, other)
  {
    if h != [] {
      TextsAfterRemove(h[1..], name, other);
      TextsFirst(h, other);
      if h[0].name != name {
        assert Remove(h, name)[1..] == Remove(h[1..], name);
        TextsFirst(Remove(h, name), other);
      }
    }
  }

  lemma {:induction false} TextsAfterInsert(h: Headers, name: string, text: string, other: string)
    ensures Texts(Insert(h, name, Some(text)), other) == if other == name then [text] else Texts(h, other)
  {
    var after := Insert(h, name, Some(text));
    if h == [] {
      TextsOfOne(Header(name, Some(text)), other);
    } else {
      TextsFirst(h, other);
      TextsFirst(after, other);
      if h[0].name == name {
        assert after[1..] == Remove(h[1..], name);
        TextsAfterRemove(h[1..], name, other);
      } else {
        assert after[1..] == Insert(h[1..], name, Some(text));
        TextsAfterInsert(h[1..], name, text, other);
      }
    }
  }

  lemma {:induction false} GetTextIsText(h: Headers, name: string)
    requires GetText(h, name).Some?
    ensures GetText(h, name).value in Texts(h, name)
  {
    TextsFirst(h, name);
    if h[0].name != name { GetTextIsText(h[1..], name); }
  }
}
