// Tag normalisation and the tag filter, over ASCII.
module Tags {
  import opened Prelude

  const MAX_TAGS := 10
  const MAX_TAG_LENGTH := 32

  function LowerChar(c: char): char {
    if 'A' <= c <= 'Z' then c - 'A' + 'a' else c
  }

  function Lower(s: string): string {
    Map(s, LowerChar)
  }

  predicate TagChar(c: char) {
    'a' <= c <= 'z' || '0' <= c <= '9' || c in "._/-"
  }

  predicate ValidTag(t: string) {
    1 <= |t| <= MAX_TAG_LENGTH && forall i :: 0 <= i < |t| ==> TagChar(t[i])
  }

  // What the normalised list of a fully valid request would be.
  function Canonical(tags: seq<string>): seq<string> {
    Dedup(Map(tags, Lower))
  }

  // Lower-cases each tag in turn, refuses the first invalid one, drops what
  // it already has, and finally refuses more than ten.
  method Normalize(tags: seq<string>) returns (r: Result<seq<string>>)
    ensures r.Ok? <==> (forall t :: t in tags ==> ValidTag(Lower(t))) && |Canonical(tags)| <= 10
    ensures r.Ok? ==> r.value == Canonical(tags)
    ensures r.Err? ==> r.error == BadRequest
  {
    var out := [];
    for i := 0 to |tags|
      invariant forall j :: 0 <= j < i ==> ValidTag(Lower(tags[j]))
      invariant out == Canonical(tags[..i])
    {
      var tag := Lower(tags[i]);
      if !ValidTag(tag) {
        assert tags[i] in tags;
        return Err(BadRequest);
      }
      ghost var image := Map(tags[..i + 1], Lower);
      assert image[..|image| - 1] == Map(tags[..i], Lower) && image[i] == tag;
      if tag !in out {
        out := out + [tag];
      }
    }
    assert tags[..|tags|] == tags;
    if |out| > MAX_TAGS {
      return Err(BadRequest);
    }
    return Ok(out);
  }

  const TAG_LETTERS: string := "abcdefghijklm" + "nopqrstuvwxyz"
  const TAG_OTHERS: string := "0123456789" + "._/-"

  // A tag is one to thirty-two of these characters.
  lemma ValidTagMeans(t: string)
    ensures ValidTag(t) <==> 1 <= |t| <= 32 && forall i :: 0 <= i < |t| ==> t[i] in TAG_LETTERS || t[i] in TAG_OTHERS
  {
    forall i | 0 <= i < |t| ensures TagChar(t[i]) <==> t[i] in TAG_LETTERS || t[i] in TAG_OTHERS {
      TagCharMeans(t[i]);
    }
  }

  lemma TagCharMeans(c: char)
    ensures TagChar(c) <==> c in TAG_LETTERS || c in TAG_OTHERS
  {
    if 'a' <= c <= 'z' { assert TAG_LETTERS[c as int - 'a' as int] == c; }
    if '0' <= c <= '9' { assert TAG_OTHERS[c as int - '0' as int] == c; }
    if c in "._/-" {
      assert TAG_OTHERS[10] == '.' && TAG_OTHERS[11] == '_' && TAG_OTHERS[12] == '/' && TAG_OTHERS[13] == '-';
    }
  }

  // Two characters count as the same exactly when they are, or are the two
  // cases of one ASCII letter; no capital is left.
  lemma FoldingMeans(c: char, d: char)
    ensures LowerChar(c) == LowerChar(d) <==> c == d || OtherCase(c, d) || OtherCase(d, c)
    ensures !('A' <= LowerChar(c) <= 'Z')
  {
  }

  predicate OtherCase(lower: char, upper: char) {
    'a' <= lower <= 'z' && 'A' <= upper <= 'Z' && lower as int - upper as int == 32
  }

  predicate SameFolded(a: string, b: string) {
    Lower(a) == Lower(b)
  }

  predicate HasAllTags(have: seq<string>, want: seq<string>) {
    forall w :: w in want ==> exists h :: h in have && SameFolded(h, w)
  }

  lemma LowerTwice(s: string)
    ensures Lower(Lower(s)) == Lower(s)
  {
  }

  // Members of the canonical list: exactly the lower-cased tags.
  lemma CanonicalMembers(tags: seq<string>, x: string)
    ensures x in Canonical(tags) <==> exists t :: t in tags && Lower(t) == x
  {
    var image := Map(tags, Lower);
    if x in image {
      var i :| 0 <= i < |image| && image[i] == x;
      assert tags[i] in tags;
    }
    if t :| t in tags && Lower(t) == x {
      var i :| 0 <= i < |tags| && tags[i] == t;
      assert image[i] == x;
    }
  }

  // Normalising twice is normalising once, without duplicates and in the
  // order of first occurrence.
  lemma CanonicalStable(tags: seq<string>)
    ensures Canonical(Canonical(tags)) == Canonical(tags)
    ensures NoDuplicates(Canonical(tags))
    ensures forall i, j :: 0 <= i < j < |Canonical(tags)| ==>
              var image, c := Map(tags, Lower), Canonical(tags);
              c[i] in image && c[j] in image && FirstIndex(image, c[i]) < FirstIndex(image, c[j])
  {
    var image, c := Map(tags, Lower), Canonical(tags);
    forall i | 0 <= i < |c| ensures Lower(c[i]) == c[i] {
      assert c[i] in c;
      CanonicalMembers(tags, c[i]);
      var t :| t in tags && Lower(t) == c[i];
      LowerTwice(t);
    }
    assert Map(c, Lower) == c;
    DedupOfDistinct(c);
    forall i, j | 0 <= i < j < |c|
      ensures c[i] in image && c[j] in image && FirstIndex(image, c[i]) < FirstIndex(image, c[j])
    {
      DedupOrder(image, i, j);
    }
  }

  // A listing filtered by want keeps exactly the objects whose tags, as
  // originally given and lower-cased, include every lower-cased wanted tag.
  lemma TagFilterAgrees(original: seq<string>, want: seq<string>)
    ensures HasAllTags(Canonical(original), want) <==>
            forall w :: w in want ==> exists t :: t in original && Lower(t) == Lower(w)
  {
    forall w | w in want
      ensures (exists h :: h in Canonical(original) && SameFolded(h, w)) <==>
              (exists t :: t in original && Lower(t) == Lower(w))
    {
      if h :| h in Canonical(original) && SameFolded(h, w) {
        CanonicalMembers(original, h);
        var t :| t in original && Lower(t) == h;
        LowerTwice(t);
      }
      if t :| t in original && Lower(t) == Lower(w) {
        CanonicalMembers(original, Lower(t));
        LowerTwice(t);
        assert SameFolded(Lower(t), w);
      }
    }
  }
}
