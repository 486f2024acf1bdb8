/**
 Splitting a request path into the bucket and the path inside it.

 The slash in front of the object path is recovered by searching the whole input for the text after it.
 That search finds the first occurrence, which need not be the one behind the bucket.
 */
module PathSplit {
  import opened Text

  /** An error, the two parts, or a panic. */
  datatype Parsed = Invalid | Parts(bucket: string, path: string) | Panics

  /** The text between the leading slash and the next one. */
  function Bucket(input: string): string
    requires input != ""
  {
    input[1..][..IndexOf(input[1..], '/')]
  }

  /** The text behind the slash that ends the bucket, if there is one. */
  function Remainder(input: string): string
    requires input != ""
  {
    var i := IndexOf(input[1..], '/');
    if i == |input| - 1 then "" else input[1..][i + 1..]
  }

  /** The path starts with a slash and names a bucket. */
  predicate IsPath(input: string) {
    input != "" && input[0] == '/' && Bucket(input) != ""
  }

  /** The slice one byte before the first occurrence of `rest`. */
  function SlashBefore(input: string, rest: string): Option<string>
    requires Find(input, rest).Some?
  {
    var i := Find(input, rest).value;
    if i == 0 || input[i - 1] as int >= 0x80 then None else Some(input[i - 1..])
  }

  /** The pieces of a path put together. */
  lemma Pieces(input: string)
    requires IsPath(input)
    ensures '/' !in Bucket(input)
    ensures input == "/" + Bucket(input) || input == "/" + Bucket(input) + "/" + Remainder(input)
    ensures Remainder(input) != "" ==> input == "/" + Bucket(input) + "/" + Remainder(input)
  {
    var inner := input[1..];
    var i := IndexOf(inner, '/');
    assert input == "/" + inner;
    if i == |inner| {
      assert inner[..i] == inner;
    } else {
      CutAt(inner, i);
    }
  }

  lemma CutAt(inner: string, i: nat)
    requires i < |inner| && inner[i] == '/'
    ensures "/" + inner == "/" + inner[..i] + "/" + inner[i + 1..]
  {
    assert inner == inner[..i] + [inner[i]] + inner[i + 1..];
  }

  lemma OccursAtEnd(bucket: string, rest: string)
    ensures OccursAt("/" + bucket + "/" + rest, rest, |bucket| + 2)
    ensures |"/" + bucket + "/" + rest| == |bucket| + 2 + |rest|
    ensures ("/" + bucket + "/" + rest)[|bucket| + 1..] == "/" + rest
    ensures ("/" + bucket + "/" + rest)[|bucket| + 1] == '/'
  {
    var input := "/" + bucket + "/" + rest;
    assert input[|bucket| + 2..|bucket| + 2 + |rest|] == rest;
  }

  lemma RemainderOccurs(input: string)
    requires IsPath(input) && Remainder(input) != ""
    ensures OccursAt(input, Remainder(input), |Bucket(input)| + 2)
    ensures input == "/" + Bucket(input) + "/" + Remainder(input)
    ensures |input| == |Bucket(input)| + 2 + |Remainder(input)|
    ensures input[|Bucket(input)| + 1..] == ObjectPath(input) && input[|Bucket(input)| + 1] == '/'
  {
    Pieces(input);
    OccursAtEnd(Bucket(input), Remainder(input));
  }

  /** `parse_path`. */
  function ParsePath(input: string): Parsed {
    if !IsPath(input) then Invalid
    else if Remainder(input) == "" then Parts(Bucket(input), "/")
    else
      RemainderOccurs(input);
      match SlashBefore(input, Remainder(input))
      case None => Panics
      case Some(path) => Parts(Bucket(input), path)
  }

  /** The object path as it should be. */
  function ObjectPath(input: string): string
    requires input != ""
  {
    "/" + Remainder(input)
  }

  /** The text behind the bucket's slash occurs nowhere earlier in the path. */
  predicate FirstIsReal(input: string)
    requires input != ""
  {
    Remainder(input) == "" || Find(input, Remainder(input)) == Some(|Bucket(input)| + 2)
  }

  lemma ParsedFrom(input: string, i: nat)
    requires IsPath(input) && Remainder(input) != "" && Find(input, Remainder(input)) == Some(i)
    ensures ParsePath(input)
         == if i == 0 || input[i - 1] as int >= 0x80 then Panics else Parts(Bucket(input), input[i - 1..])
  {
  }

  lemma SplitOfRest(input: string)
    requires IsPath(input) && Remainder(input) != ""
    ensures ParsePath(input) == Parts(Bucket(input), ObjectPath(input))
        <==> Find(input, Remainder(input)) == Some(|Bucket(input)| + 2)
  {
    RemainderOccurs(input);
    ParsedFrom(input, Find(input, Remainder(input)).value);
  }

  /** The split is right if and only if the first occurrence is the real one. */
  lemma SplitExactly(input: string)
    requires IsPath(input)
    ensures ParsePath(input) == Parts(Bucket(input), ObjectPath(input)) <==> FirstIsReal(input)
    ensures '/' !in Bucket(input)
    ensures Remainder(input) != "" || input == "/" + Bucket(input) + "/" || input == "/" + Bucket(input)
  {
    Pieces(input);
    if Remainder(input) != "" { SplitOfRest(input); }
  }

  /** For every bucket and every key: the two come back exactly when the key occurs nowhere earlier in the path. */
  lemma BucketAndKeyComeBack(bucket: string, key: string)
    requires bucket != "" && '/' !in bucket
    ensures
      var input := "/" + bucket + "/" + key;
      ParsePath(input) == Parts(bucket, "/" + key) <==> key == "" || Find(input, key) == Some(|bucket| + 2)
  {
    PiecesOf(bucket, key);
    SplitExactly("/" + bucket + "/" + key);
  }

  lemma PiecesOf(bucket: string, key: string)
    requires '/' !in bucket
    ensures Bucket("/" + bucket + "/" + key) == bucket && Remainder("/" + bucket + "/" + key) == key
  {
    var input := "/" + bucket + "/" + key;
    var inner := bucket + ['/'] + key;
    assert input[1..] == inner;
    IndexOfConcat(bucket, '/', key);
    assert inner[..|bucket|] == bucket && inner[|bucket| + 1..] == key;
  }

  /** A wrong split never yields a shorter or equal path, so it is always visible. */
  lemma WrongSplitIsLonger(input: string)
    requires IsPath(input) && !FirstIsReal(input) && ParsePath(input).Parts?
    ensures |ObjectPath(input)| < |ParsePath(input).path| <= |input|
    ensures ParsePath(input).path == input[|input| - |ParsePath(input).path|..]
  {
    RemainderOccurs(input);
  }

  /** The first segment of the object path. */
  function FirstSegment(input: string): string
    requires input != ""
  {
    Remainder(input)[..IndexOf(Remainder(input), '/')]
  }

  /** A caller can rely on the split when the first segment is not a part of the bucket's name. */
  lemma SegmentOutsideBucket(input: string)
    requires IsPath(input) && FirstSegment(input) != ""
    requires forall j :: !OccursAt(Bucket(input), FirstSegment(input), j)
    ensures FirstIsReal(input)
  {
    var bucket, rest, segment := Bucket(input), Remainder(input), FirstSegment(input);
    RemainderOccurs(input);
    forall j | 0 <= j < |bucket| + 2 ensures !OccursAt(input, rest, j) {
      if OccursAt(input, rest, j) { OccurrenceInBucket(input, bucket, rest, segment, j); }
    }
    FindIs(input, rest, |bucket| + 2);
  }

  /** An earlier occurrence of the rest lies over the bucket, where its first segment then occurs. */
  lemma OccurrenceInBucket(input: string, bucket: string, rest: string, segment: string, j: nat)
    requires input == "/" + bucket + "/" + rest && j < |bucket| + 2 && OccursAt(input, rest, j)
    requires segment != "" && '/' !in segment && |segment| <= |rest| && rest[..|segment|] == segment
    ensures OccursAt(bucket, segment, j - 1)
  {
    forall i | j <= i < j + |segment| ensures input[i] == segment[i - j] != '/' {
      assert input[j..j + |rest|][i - j] == rest[i - j] == rest[..|segment|][i - j];
      assert segment[i - j] in segment;
    }
    assert input[0] == '/' && input[|bucket| + 1] == '/';
    assert 1 <= j && j + |segment| <= |bucket| + 1;
    forall k | 0 <= k < |segment| ensures bucket[j - 1 + k] == segment[k] {
      assert bucket[j - 1 + k] == input[j + k];
    }
    SliceIs(bucket, j - 1, segment);
  }

  lemma SliceIs(s: string, i: nat, part: string)
    requires i + |part| <= |s| && forall k :: 0 <= k < |part| ==> s[i + k] == part[k]
    ensures s[i..i + |part|] == part
  {
    forall k | 0 <= k < |part| ensures s[i..i + |part|][k] == part[k] {
      assert s[i..i + |part|][k] == s[i + k];
    }
  }

  lemma FindChar(s: string, c: char, i: nat)
    requires i < |s| && s[i] == c && forall j :: 0 <= j < i ==> s[j] != c
    ensures Find(s, [c]) == Some(i)
  {
    assert s[i..i + 1] == [c];
    forall j | 0 <= j < i ensures !OccursAt(s, [c], j) {
      assert s[j..j + 1][0] == s[j];
    }
    FindIs(s, [c], i);
  }

  /** A key that ends the bucket's name: the split returns the bucket along with the key. */
  lemma KeyInsideBucket()
    ensures IsPath("/ab/b") && ParsePath("/ab/b") == Parts("ab", "ab/b")
  {
    var input := "/ab/b";
    assert input == "/" + "ab" + "/" + "b";
    PiecesOf("ab", "b");
    FindChar(input, 'b', 2);
    ParsedFrom(input, 2);
    assert input[1..] == "ab/b";
  }

  /** A second slash behind the bucket makes the program panic. */
  lemma DoubleSlashPanics()
    ensures IsPath("/b//") && ParsePath("/b//") == Panics
  {
    var input := "/b//";
    assert input == "/" + "b" + "/" + "/";
    PiecesOf("b", "/");
    FindChar(input, '/', 0);
    ParsedFrom(input, 0);
  }
}
