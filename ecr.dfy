/**
 * The tag selection of `GetLatestTag` in pkg/ecr/client.go, from the point where the
 * image details of the repository are known: flatten their tags, drop empty ones,
 * keep those the tag filter matches, and return the greatest in byte-wise order.
 */
module Ecr {
  import opened Wrappers

  /** The part of an ECR image description the selection reads. */
  datatype ImageDetail = ImageDetail(imageTags: seq<string>)

  /**
   * The outcome of `regexp.Compile(tagFilter)`: whether the pattern compiles, and
   * `MatchString` of the compiled pattern (an unanchored search, left uninterpreted).
   */
  datatype Regex = Regex(compiles: bool, matches: string -> bool)

  datatype TagError =
    | NoImages(repository: string)        // no images found in repository %s
    | InvalidFilter                       // invalid tag filter regex
    | NoMatchingTags(repository: string)  // no tags found matching filter in repository %s

  /**
   * Go's `a < b` on strings: byte-wise lexicographic order. On `char` sequences the
   * order of code points is the order of their UTF-8 encodings, so comparing
   * characters gives the same answer as comparing bytes.
   */
  predicate LexLess(a: string, b: string)
  {
    if |a| == 0 then |b| > 0
    else if |b| == 0 then false
    else if a[0] != b[0] then a[0] < b[0]
    else LexLess(a[1..], b[1..])
  }

  lemma {:induction false} LexLessIrreflexive(a: string)
    ensures !LexLess(a, a)
    decreases |a|
  {
    if |a| > 0 {
      LexLessIrreflexive(a[1..]);
    }
  }

  lemma {:induction false} LexLessAsymmetric(a: string, b: string)
    requires LexLess(a, b)
    ensures !LexLess(b, a)
    decreases |a|
  {
    if |a| > 0 && a[0] == b[0] {
      LexLessAsymmetric(a[1..], b[1..]);
    }
  }

  lemma {:induction false} LexLessTransitive(a: string, b: string, c: string)
    requires LexLess(a, b) && LexLess(b, c)
    ensures LexLess(a, c)
    decreases |a|
  {
    if |a| > 0 && a[0] == b[0] && b[0] == c[0] {
      LexLessTransitive(a[1..], b[1..], c[1..]);
    }
  }

  /** Any two different strings are ordered one way or the other. */
  lemma {:induction false} LexLessTotal(a: string, b: string)
    requires a != b
    ensures LexLess(a, b) || LexLess(b, a)
    decreases |a|
  {
    if |a| > 0 && |b| > 0 && a[0] == b[0] {
      assert a == [a[0]] + a[1..];
      assert b == [b[0]] + b[1..];
      LexLessTotal(a[1..], b[1..]);
    }
  }

  /** Whether a tag is a candidate: non-empty and, when a filter is given, matched by it. */
  predicate Keeps(tagFilter: string, regex: Regex, tag: string)
  {
    tag != "" && (tagFilter == "" || regex.matches(tag))
  }

  /** The candidates among the tags of one image, in order. */
  function Kept(tags: seq<string>, tagFilter: string, regex: Regex): seq<string>
  {
    if |tags| == 0 then []
    else
      var last := tags[|tags| - 1];
      Kept(tags[..|tags| - 1], tagFilter, regex) + (if Keeps(tagFilter, regex, last) then [last] else [])
  }

  /** The candidates across all images, image by image. */
  function Candidates(details: seq<ImageDetail>, tagFilter: string, regex: Regex): seq<string>
  {
    if |details| == 0 then []
    else
      Candidates(details[..|details| - 1], tagFilter, regex)
        + Kept(details[|details| - 1].imageTags, tagFilter, regex)
  }

  /** `t` is a candidate and no candidate is greater. */
  predicate IsLatest(t: string, candidates: seq<string>)
  {
    t in candidates && forall c :: c in candidates ==> !LexLess(t, c)
  }

  lemma {:induction false} KeptMembers(tags: seq<string>, tagFilter: string, regex: Regex)
    ensures forall t :: t in Kept(tags, tagFilter, regex) <==> t in tags && Keeps(tagFilter, regex, t)
    decreases |tags|
  {
    if |tags| > 0 {
      KeptMembers(tags[..|tags| - 1], tagFilter, regex);
      assert tags == tags[..|tags| - 1] + [tags[|tags| - 1]];
    }
  }

  /**
   * The candidates are exactly the non-empty tags of some image that pass the filter;
   * with an empty filter that is every non-empty tag.
   */
  lemma {:induction false} CandidateMembers(details: seq<ImageDetail>, tagFilter: string, regex: Regex, t: string)
    ensures t in Candidates(details, tagFilter, regex)
        <==> Keeps(tagFilter, regex, t) && exists i :: 0 <= i < |details| && t in details[i].imageTags
    decreases |details|
  {
    if |details| > 0 {
      var n := |details| - 1;
      CandidateMembers(details[..n], tagFilter, regex, t);
      KeptMembers(details[n].imageTags, tagFilter, regex);
      if t in Candidates(details, tagFilter, regex) {
        if t in Candidates(details[..n], tagFilter, regex) {
          var i :| 0 <= i < n && t in details[..n][i].imageTags;
          assert t in details[i].imageTags;
        } else {
          assert t in details[n].imageTags;
        }
      }
      if Keeps(tagFilter, regex, t) && exists i :: 0 <= i < |details| && t in details[i].imageTags {
        var i :| 0 <= i < |details| && t in details[i].imageTags;
        if i < n {
          assert t in details[..n][i].imageTags;
        }
      }
    }
  }

  /** There is only one greatest candidate. */
  lemma LatestUnique(candidates: seq<string>, a: string, b: string)
    requires IsLatest(a, candidates) && IsLatest(b, candidates)
    ensures a == b
  {
    if a != b {
      LexLessTotal(a, b);
    }
  }

  /**
   * The selected tag does not depend on the order in which the tags arrive: any
   * rearrangement of the candidates has the same greatest element.
   */
  lemma LatestIgnoresOrder(c1: seq<string>, c2: seq<string>, a: string, b: string)
    requires multiset(c1) == multiset(c2)
    requires IsLatest(a, c1) && IsLatest(b, c2)
    ensures a == b
  {
    forall t ensures t in c1 <==> t in c2 {
      assert t in c1 <==> t in multiset(c1);
      assert t in c2 <==> t in multiset(c2);
    }
    LatestUnique(c1, a, b);
  }

  /**
   * `GetLatestTag` after `DescribeImages`: no image is an error, then a non-empty
   * filter that does not compile, then an empty candidate list; otherwise the
   * greatest candidate, which the descending sort puts first.
   */
  method GetLatestTag(repositoryName: string, details: seq<ImageDetail>, tagFilter: string, regex: Regex)
    returns (r: Result<string, TagError>)
    ensures |details| == 0 ==> r == Failure(NoImages(repositoryName))
    ensures |details| > 0 && tagFilter != "" && !regex.compiles ==> r == Failure(InvalidFilter)
    ensures |details| > 0 && (tagFilter == "" || regex.compiles) && |Candidates(details, tagFilter, regex)| == 0
            ==> r == Failure(NoMatchingTags(repositoryName))
    ensures |details| > 0 && (tagFilter == "" || regex.compiles) && |Candidates(details, tagFilter, regex)| > 0
            ==> r.Success? && IsLatest(r.value, Candidates(details, tagFilter, regex))
  {
    if |details| == 0 {
      return Failure(NoImages(repositoryName));
    }
    if tagFilter != "" && !regex.compiles {
      return Failure(InvalidFilter);
    }

    var tags: seq<string> := [];
    var i := 0;
    while i < |details|
      invariant 0 <= i <= |details|
      invariant tags == Candidates(details[..i], tagFilter, regex)
    {
      var imageTags := details[i].imageTags;
      var j := 0;
      while j < |imageTags|
        invariant 0 <= j <= |imageTags|
        invariant tags == Candidates(details[..i], tagFilter, regex) + Kept(imageTags[..j], tagFilter, regex)
      {
        var tag := imageTags[j];
        assert imageTags[..j + 1][..j] == imageTags[..j];
        if tag != "" {
          if tagFilter == "" || regex.matches(tag) {
            tags := tags + [tag];
          }
        }
        j := j + 1;
      }
      assert imageTags[..j] == imageTags;
      assert details[..i + 1][..i] == details[..i];
      i := i + 1;
    }
    assert details[..i] == details;

    if |tags| == 0 {
      return Failure(NoMatchingTags(repositoryName));
    }

    var latest := tags[0];
    LexLessIrreflexive(latest);
    var k := 1;
    while k < |tags|
      invariant 1 <= k <= |tags|
      invariant latest in tags
      invariant forall m :: 0 <= m < k ==> !LexLess(latest, tags[m])
    {
      if LexLess(latest, tags[k]) {
        forall m | 0 <= m <= k
          ensures !LexLess(tags[k], tags[m])
        {
          if m == k {
            LexLessIrreflexive(tags[k]);
          } else if LexLess(tags[k], tags[m]) {
            LexLessTransitive(latest, tags[k], tags[m]);
          }
        }
        latest := tags[k];
      } else {
        assert !LexLess(latest, tags[k]);
      }
      k := k + 1;
    }
    return Success(latest);
  }
}
