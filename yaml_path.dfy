/**
 * Path expressions of the YAML updater (pkg/yaml/updater.go): `parsePath`, which
 * rewrites `word[digits]` into `word.digits` with one regular-expression replacement
 * and then splits on '.', and `ValidateYAMLPath`, a regular-expression recognizer.
 * Both regular expressions are written out here as hand-made scanners.
 */
module YamlPath {
  import opened Wrappers
  import opened Strings

  /** `\w` of Go's regexp syntax: ASCII letters, digits and '_'. */
  predicate IsWordChar(c: char)
  {
    'a' <= c <= 'z' || 'A' <= c <= 'Z' || '0' <= c <= '9' || c == '_'
  }

  /** `\d` of Go's regexp syntax. */
  predicate IsDigit(c: char)
  {
    '0' <= c <= '9'
  }

  /** `[a-zA-Z_]`: a character that may start an identifier. */
  predicate IsIdentStart(c: char)
  {
    'a' <= c <= 'z' || 'A' <= c <= 'Z' || c == '_'
  }

  /** Length of the longest prefix of `s` made of word characters. */
  function WordRun(s: string): (n: nat)
    ensures n <= |s|
  {
    if |s| == 0 || !IsWordChar(s[0]) then 0 else 1 + WordRun(s[1..])
  }

  /** The run is made of word characters and is maximal. */
  lemma {:induction false} WordRunIsMaximal(s: string)
    ensures forall i :: 0 <= i < WordRun(s) ==> IsWordChar(s[i])
    ensures WordRun(s) < |s| ==> !IsWordChar(s[WordRun(s)])
    decreases |s|
  {
    if |s| > 0 && IsWordChar(s[0]) {
      WordRunIsMaximal(s[1..]);
    }
  }

  /** Length of the longest prefix of `s` made of decimal digits. */
  function DigitRun(s: string): (n: nat)
    ensures n <= |s|
  {
    if |s| == 0 || !IsDigit(s[0]) then 0 else 1 + DigitRun(s[1..])
  }

  /** The run is made of digits and is maximal. */
  lemma {:induction false} DigitRunIsMaximal(s: string)
    ensures forall i :: 0 <= i < DigitRun(s) ==> IsDigit(s[i])
    ensures DigitRun(s) < |s| ==> !IsDigit(s[DigitRun(s)])
    decreases |s|
  {
    if |s| > 0 && IsDigit(s[0]) {
      DigitRunIsMaximal(s[1..]);
    }
  }

  // ---------------------------------------------------------------------------
  // parsePath
  // ---------------------------------------------------------------------------

  /** A match of `(\w+)\[(\d+)\]` at the front of a text: the lengths of its two groups. */
  datatype IndexMatch = IndexMatch(word: nat, digits: nat)

  /**
   * Whether the pattern `(\w+)\[(\d+)\]` matches at the front of `s`, and where.
   * The match is unique: `\w+` must stop right before '[' and `\d+` right before
   * ']', and neither is a word character.
   */
  function IndexedWordAt(s: string): (m: Option<IndexMatch>)
    ensures m.Some? ==> m.value.word + 2 + m.value.digits <= |s|
  {
    var w := WordRun(s);
    if 0 < w < |s| && s[w] == '[' then
      var d := DigitRun(s[w + 1..]);
      if 0 < d && w + 1 + d < |s| && s[w + 1 + d] == ']' then Some(IndexMatch(w, d)) else None
    else None
  }

  /** What the replacement writes for the front of `s`: `$1.$2` on a match, else the first character. */
  function Emitted(s: string, m: Option<IndexMatch>): string
    requires |s| > 0 && (m.Some? ==> m.value.word + 2 + m.value.digits <= |s|)
  {
    if m.Some? then s[..m.value.word] + "." + s[m.value.word + 1..m.value.word + 1 + m.value.digits]
    else [s[0]]
  }

  /** How much of `s` the replacement step consumes. */
  function Consumed(s: string, m: Option<IndexMatch>): (n: nat)
    requires |s| > 0 && (m.Some? ==> m.value.word + 2 + m.value.digits <= |s|)
    ensures 0 < n <= |s|
  {
    if m.Some? then m.value.word + 2 + m.value.digits else 1
  }

  /**
   * `regexp.MustCompile(`(\w+)\[(\d+)\]`).ReplaceAllString(s, "$1.$2")`: the leftmost
   * match is replaced and the search resumes after it.
   */
  function RewriteIndexes(s: string): string
    decreases |s|
  {
    if |s| == 0 then ""
    else
      var m := IndexedWordAt(s);
      Emitted(s, m) + RewriteIndexes(s[Consumed(s, m)..])
  }

  /** `parsePath`: bracket indexes become dotted steps, then the path is split on '.'. */
  function ParsePath(path: string): (parts: seq<string>)
  {
    Split(RewriteIndexes(path), '.')
  }

  /** The parts are never empty as a list, hold no '.', and join back to the rewritten path. */
  lemma ParsePathShape(path: string)
    ensures |ParsePath(path)| >= 1
    ensures forall i :: 0 <= i < |ParsePath(path)| ==> '.' !in ParsePath(path)[i]
    ensures Join(ParsePath(path), '.') == RewriteIndexes(path)
  {
  }

  /** A path without '[' is left alone by the rewrite. */
  lemma {:induction false} RewriteBracketFree(s: string)
    requires '[' !in s
    ensures RewriteIndexes(s) == s
    decreases |s|
  {
    if |s| > 0 {
      assert IndexedWordAt(s).None? by {
        var w := WordRun(s);
        if 0 < w < |s| { assert s[w] in s; }
      }
      assert forall c :: c in s[1..] ==> c in s;
      RewriteBracketFree(s[1..]);
    }
  }

  /** A bracket-free path is split on '.' and nothing else. */
  lemma ParsePathBracketFree(path: string)
    requires '[' !in path
    ensures ParsePath(path) == Split(path, '.')
  {
    RewriteBracketFree(path);
  }

  // ---------------------------------------------------------------------------
  // ValidateYAMLPath
  // ---------------------------------------------------------------------------

  /**
   * `^[a-zA-Z_][a-zA-Z0-9_]*(\.[a-zA-Z_][a-zA-Z0-9_]*|\[\d+\])*$`, scanned from an
   * identifier. The identifier's tail is taken greedily: what may follow it ('.', '['
   * or the end) is never a word character, so no other split can match.
   */
  predicate MatchesPath(s: string)
    decreases |s|
  {
    |s| > 0 && IsIdentStart(s[0]) && MatchesSuffixes(s[1 + WordRun(s[1..])..])
  }

  /** `(\.[a-zA-Z_][a-zA-Z0-9_]*|\[\d+\])*$`. */
  predicate MatchesSuffixes(t: string)
    decreases |t|
  {
    if |t| == 0 then true
    else if t[0] == '.' then MatchesPath(t[1..])
    else if t[0] == '[' then
      var d := DigitRun(t[1..]);
      0 < d && 1 + d < |t| && t[1 + d] == ']' && MatchesSuffixes(t[2 + d..])
    else false
  }

  datatype PathSyntaxError = EmptyPath | InvalidPathFormat(path: string)

  /** `ValidateYAMLPath`: None when the path is acceptable, otherwise why it is not. */
  function ValidateYAMLPath(path: string): Option<PathSyntaxError>
  {
    if path == "" then Some(EmptyPath)
    else if !MatchesPath(path) then Some(InvalidPathFormat(path))
    else None
  }

  // The grammar of acceptable paths, stated independently of the scanner:
  // an identifier followed by any number of `.identifier` and `[digits]` suffixes.

  datatype Suffix = Field(name: string) | Index(digits: string)

  predicate IsIdent(s: string)
  {
    |s| > 0 && IsIdentStart(s[0]) && forall i :: 0 <= i < |s| ==> IsWordChar(s[i])
  }

  predicate IsDigits(s: string)
  {
    |s| > 0 && forall i :: 0 <= i < |s| ==> IsDigit(s[i])
  }

  predicate WellFormedSuffix(x: Suffix)
  {
    match x
    case Field(name) => IsIdent(name)
    case Index(digits) => IsDigits(digits)
  }

  predicate WellFormedSuffixes(xs: seq<Suffix>)
  {
    forall i :: 0 <= i < |xs| ==> WellFormedSuffix(xs[i])
  }

  function SuffixText(x: Suffix): string
  {
    match x
    case Field(name) => "." + name
    case Index(digits) => "[" + digits + "]"
  }

  function SuffixesText(xs: seq<Suffix>): string
  {
    if |xs| == 0 then "" else SuffixText(xs[0]) + SuffixesText(xs[1..])
  }

  /** The text of the path `id` followed by `xs`. */
  function PathText(id: string, xs: seq<Suffix>): string
  {
    id + SuffixesText(xs)
  }

  /** Membership in the language of the validation pattern. */
  ghost predicate InPathLanguage(s: string)
  {
    exists id, xs :: IsIdent(id) && WellFormedSuffixes(xs) && s == PathText(id, xs)
  }

  lemma {:induction false} WordRunOfWord(u: string, v: string)
    requires forall i :: 0 <= i < |u| ==> IsWordChar(u[i])
    requires |v| > 0 ==> !IsWordChar(v[0])
    ensures WordRun(u + v) == |u|
    decreases |u|
  {
    if |u| > 0 {
      assert (u + v)[1..] == u[1..] + v;
      WordRunOfWord(u[1..], v);
    } else {
      assert u + v == v;
    }
  }

  lemma {:induction false} DigitRunOfDigits(u: string, v: string)
    requires forall i :: 0 <= i < |u| ==> IsDigit(u[i])
    requires |v| > 0 ==> !IsDigit(v[0])
    ensures DigitRun(u + v) == |u|
    decreases |u|
  {
    if |u| > 0 {
      assert (u + v)[1..] == u[1..] + v;
      DigitRunOfDigits(u[1..], v);
    } else {
      assert u + v == v;
    }
  }

  lemma SuffixesTextCons(xs: seq<Suffix>)
    requires |xs| > 0
    ensures SuffixesText(xs) == SuffixText(xs[0]) + SuffixesText(xs[1..])
  {
  }

  /** The first character of a non-empty suffix text is '.' or '['. */
  lemma SuffixesTextStart(xs: seq<Suffix>)
    ensures |xs| > 0 ==> |SuffixesText(xs)| > 0 && SuffixesText(xs)[0] == SuffixText(xs[0])[0]
    ensures |xs| > 0 ==> SuffixesText(xs)[0] == '.' || SuffixesText(xs)[0] == '['
  {
  }

  /** Completeness of the scanner: every path of the grammar is accepted. */
  lemma {:induction false} GrammarPathsMatch(id: string, xs: seq<Suffix>)
    requires IsIdent(id) && WellFormedSuffixes(xs)
    ensures MatchesPath(PathText(id, xs))
    decreases |xs|, 4
  {
    var s := PathText(id, xs);
    var tail := SuffixesText(xs);
    SuffixesTextStart(xs);
    assert s[1..] == id[1..] + tail;
    WordRunOfWord(id[1..], tail);
    assert s[1 + WordRun(s[1..])..] == tail;
    GrammarSuffixesMatch(xs);
  }

  lemma {:induction false} GrammarSuffixesMatch(xs: seq<Suffix>)
    requires WellFormedSuffixes(xs)
    ensures MatchesSuffixes(SuffixesText(xs))
    decreases |xs|, 3
  {
    if |xs| > 0 {
      assert WellFormedSuffixes(xs[1..]) by {
        forall i | 0 <= i < |xs[1..]| ensures WellFormedSuffix(xs[1..][i]) {
          assert xs[1..][i] == xs[i + 1];
        }
      }
      assert WellFormedSuffix(xs[0]);
      SuffixesTextCons(xs);
      match xs[0]
      case Field(name) => GrammarFieldMatch(name, xs[1..]);
      case Index(digits) => GrammarIndexMatch(digits, xs[1..]);
    }
  }

  lemma {:induction false} GrammarFieldMatch(name: string, xs: seq<Suffix>)
    requires IsIdent(name) && WellFormedSuffixes(xs)
    ensures MatchesSuffixes("." + name + SuffixesText(xs))
    decreases |xs| + 1, 2
  {
    var t := "." + name + SuffixesText(xs);
    assert t[1..] == PathText(name, xs);
    GrammarPathsMatch(name, xs);
  }

  lemma {:induction false} GrammarIndexMatch(digits: string, xs: seq<Suffix>)
    requires IsDigits(digits) && WellFormedSuffixes(xs)
    ensures MatchesSuffixes("[" + digits + "]" + SuffixesText(xs))
    decreases |xs| + 1, 2
  {
    var rest := SuffixesText(xs);
    var t := "[" + digits + "]" + rest;
    SuffixesTextStart(xs);
    assert t[1..] == digits + ("]" + rest);
    DigitRunOfDigits(digits, "]" + rest);
    assert t[2 + |digits|..] == rest;
    GrammarSuffixesMatch(xs);
  }

  lemma ConsSuffix(x: Suffix, xs: seq<Suffix>)
    requires WellFormedSuffix(x) && WellFormedSuffixes(xs)
    ensures WellFormedSuffixes([x] + xs)
    ensures SuffixesText([x] + xs) == SuffixText(x) + SuffixesText(xs)
  {
    assert ([x] + xs)[1..] == xs;
  }

  /** Soundness of the scanner: every accepted string is a path of the grammar. */
  lemma {:induction false} MatchedPathInGrammar(s: string) returns (id: string, xs: seq<Suffix>)
    requires MatchesPath(s)
    ensures IsIdent(id) && WellFormedSuffixes(xs) && s == PathText(id, xs)
    decreases |s|, 1
  {
    var w := WordRun(s[1..]);
    id := LeadingIdent(s);
    xs := MatchedSuffixesInGrammar(s[1 + w..]);
    SplitText(s, 1 + w);
  }

  /** The identifier at the front of a matched path: its first character and the word run after it. */
  lemma LeadingIdent(s: string) returns (id: string)
    requires |s| > 0 && IsIdentStart(s[0])
    ensures id == s[..1 + WordRun(s[1..])] && IsIdent(id)
  {
    var w := WordRun(s[1..]);
    WordRunIsMaximal(s[1..]);
    id := s[..1 + w];
    forall i | 0 <= i < |id| ensures IsWordChar(id[i]) {
      if i > 0 { assert id[i] == s[1..][i - 1]; }
    }
  }

  lemma SplitText(s: string, k: nat)
    requires k <= |s|
    ensures s == s[..k] + s[k..]
  {
  }

  lemma {:induction false} MatchedSuffixesInGrammar(t: string) returns (xs: seq<Suffix>)
    requires MatchesSuffixes(t)
    ensures WellFormedSuffixes(xs) && t == SuffixesText(xs)
    decreases |t|, 1
  {
    if |t| == 0 {
      xs := [];
    } else if t[0] == '.' {
      xs := MatchedFieldInGrammar(t);
    } else {
      xs := MatchedIndexInGrammar(t);
    }
  }

  lemma {:induction false} MatchedFieldInGrammar(t: string) returns (xs: seq<Suffix>)
    requires MatchesSuffixes(t) && |t| > 0 && t[0] == '.'
    ensures WellFormedSuffixes(xs) && t == SuffixesText(xs)
    decreases |t|, 0
  {
    assert MatchesPath(t[1..]);
    var id, rest := MatchedPathInGrammar(t[1..]);
    xs := FieldSuffixFront(t, id, rest);
  }

  /** The text `.id` followed by the text of `rest`, read back as suffixes. */
  lemma FieldSuffixFront(t: string, id: string, rest: seq<Suffix>) returns (xs: seq<Suffix>)
    requires |t| > 0 && t[0] == '.' && IsIdent(id) && WellFormedSuffixes(rest)
    requires t[1..] == PathText(id, rest)
    ensures WellFormedSuffixes(xs) && t == SuffixesText(xs)
  {
    ConsSuffix(Field(id), rest);
    xs := [Field(id)] + rest;
    calc {
      SuffixesText(xs);
      SuffixText(Field(id)) + SuffixesText(rest);
      "." + id + SuffixesText(rest);
      { AppendAssoc(".", id, SuffixesText(rest)); }
      "." + t[1..];
      { assert t == [t[0]] + t[1..]; }
      t;
    }
  }

  lemma {:induction false} MatchedIndexInGrammar(t: string) returns (xs: seq<Suffix>)
    requires MatchesSuffixes(t) && |t| > 0 && t[0] != '.'
    ensures WellFormedSuffixes(xs) && t == SuffixesText(xs)
    decreases |t|, 0
  {
    var d := DigitRun(t[1..]);
    assert 0 < d && 1 + d < |t| && t[1 + d] == ']' && MatchesSuffixes(t[2 + d..]);
    DigitRunIsMaximal(t[1..]);
    assert forall i :: 1 <= i < 1 + d ==> IsDigit(t[i]) by {
      forall i | 1 <= i < 1 + d ensures IsDigit(t[i]) {
        assert t[i] == t[1..][i - 1];
      }
    }
    var rest := MatchedSuffixesInGrammar(t[2 + d..]);
    xs := IndexSuffixFront(t, d, rest);
  }

  lemma SplitIndexText(t: string, d: nat)
    requires 1 + d < |t| && t[0] == '[' && t[1 + d] == ']'
    ensures t == "[" + t[1..1 + d] + "]" + t[2 + d..]
  {
    assert t == t[..1] + t[1..1 + d] + t[1 + d..2 + d] + t[2 + d..];
  }

  /** The text `[digits]` followed by the text of `rest`, read back as suffixes. */
  lemma IndexSuffixFront(t: string, d: nat, rest: seq<Suffix>) returns (xs: seq<Suffix>)
    requires 0 < d && 1 + d < |t| && t[0] == '[' && t[1 + d] == ']'
    requires forall i :: 1 <= i < 1 + d ==> IsDigit(t[i])
    requires WellFormedSuffixes(rest) && t[2 + d..] == SuffixesText(rest)
    ensures WellFormedSuffixes(xs) && t == SuffixesText(xs)
  {
    var digits := t[1..1 + d];
    assert IsDigits(digits) by {
      forall i | 0 <= i < |digits| ensures IsDigit(digits[i]) {
        assert digits[i] == t[i + 1];
      }
    }
    ConsSuffix(Index(digits), rest);
    xs := [Index(digits)] + rest;
    SplitIndexText(t, d);
  }

  /** `ValidateYAMLPath` accepts exactly the non-empty strings of the grammar. */
  lemma ValidateYAMLPathIsGrammar(path: string)
    ensures ValidateYAMLPath(path).None? <==> InPathLanguage(path)
  {
    if ValidateYAMLPath(path).None? {
      var id, xs := MatchedPathInGrammar(path);
    }
    if InPathLanguage(path) {
      var id, xs :| IsIdent(id) && WellFormedSuffixes(xs) && path == PathText(id, xs);
      GrammarPathsMatch(id, xs);
    }
  }

  // ---------------------------------------------------------------------------
  // What parsePath makes of a path of the grammar
  // ---------------------------------------------------------------------------

  /** The navigation step a suffix stands for: a field name or the index digits. */
  function SuffixStep(x: Suffix): string
  {
    match x
    case Field(name) => name
    case Index(digits) => digits
  }

  function SuffixSteps(xs: seq<Suffix>): (steps: seq<string>)
    ensures |steps| == |xs|
    ensures forall i :: 0 <= i < |xs| ==> steps[i] == SuffixStep(xs[i])
  {
    if |xs| == 0 then [] else [SuffixStep(xs[0])] + SuffixSteps(xs[1..])
  }

  /** No `[digits]` directly follows another one, as in `a[0][1]`. */
  predicate NoAdjacentIndexes(xs: seq<Suffix>)
  {
    forall i :: 0 <= i < |xs| - 1 ==> !(xs[i].Index? && xs[i + 1].Index?)
  }

  predicate IsWord(u: string)
  {
    forall i :: 0 <= i < |u| ==> IsWordChar(u[i])
  }

  lemma RewriteStep(s: string)
    requires |s| > 0
    ensures RewriteIndexes(s) == Emitted(s, IndexedWordAt(s)) + RewriteIndexes(s[Consumed(s, IndexedWordAt(s))..])
  {
  }

  lemma EmittedMatch(s: string, w: nat, d: nat)
    requires |s| > 0 && w + 2 + d <= |s|
    ensures Emitted(s, Some(IndexMatch(w, d))) == s[..w] + "." + s[w + 1..w + 1 + d]
  {
  }

  /** One step of the rewrite where no match starts. */
  lemma RewriteNoMatch(s: string)
    requires |s| > 0 && IndexedWordAt(s).None?
    ensures RewriteIndexes(s) == [s[0]] + RewriteIndexes(s[1..])
  {
    RewriteStep(s);
  }

  /** One step of the rewrite where a match starts. */
  lemma RewriteMatch(s: string, w: nat, d: nat)
    requires |s| > 0 && IndexedWordAt(s) == Some(IndexMatch(w, d))
    ensures w + 2 + d <= |s|
    ensures RewriteIndexes(s) == s[..w] + "." + s[w + 1..w + 1 + d] + RewriteIndexes(s[w + 2 + d..])
  {
    var m := IndexedWordAt(s);
    assert Consumed(s, m) == w + 2 + d;
    assert Emitted(s, m) == s[..w] + "." + s[w + 1..w + 1 + d] by { EmittedMatch(s, w, d); }
    var rest := s[w + 2 + d..];
    RewriteStep(s);
    assert RewriteIndexes(s) == Emitted(s, m) + RewriteIndexes(s[Consumed(s, m)..]);
    assert s[Consumed(s, m)..] == rest;
    assert RewriteIndexes(s[Consumed(s, m)..]) == RewriteIndexes(rest);
  }

  lemma AppendAssoc(a: string, b: string, c: string)
    ensures a + (b + c) == (a + b) + c
  {
  }

  /** A character that is neither a word character nor '[' ends any match early. */
  lemma {:induction false} RewriteAfterWord(u: string, v: string)
    requires IsWord(u) && |v| > 0 && !IsWordChar(v[0]) && v[0] != '['
    ensures RewriteIndexes(u + v) == u + RewriteIndexes(v)
    decreases |u|
  {
    if |u| == 0 {
      assert u + v == v;
    } else {
      var tail := u[1..];
      WordTail(u);
      NoMatchBeforeStop(u, v);
      ConsTail(u, v);
      RewriteNoMatchAt(u + v, u[0], tail + v);
      RewriteAfterWord(tail, v);
      calc {
        RewriteIndexes(u + v);
        [u[0]] + RewriteIndexes(tail + v);
        [u[0]] + (tail + RewriteIndexes(v));
        { AppendAssoc([u[0]], tail, RewriteIndexes(v)); assert [u[0]] + tail == u; }
        u + RewriteIndexes(v);
      }
    }
  }

  lemma WordTail(u: string)
    requires |u| > 0 && IsWord(u)
    ensures IsWord(u[1..])
  {
    forall i | 0 <= i < |u| - 1 ensures IsWordChar(u[1..][i]) {
      assert u[1..][i] == u[i + 1];
    }
  }

  /** A word followed by a character other than a word character or '[' starts no match. */
  lemma NoMatchBeforeStop(u: string, v: string)
    requires IsWord(u) && |v| > 0 && !IsWordChar(v[0]) && v[0] != '['
    ensures IndexedWordAt(u + v).None?
  {
    WordRunOfWord(u, v);
    assert (u + v)[|u|] == v[0];
  }

  lemma ConsTail(u: string, v: string)
    requires |u| > 0
    ensures |u + v| > 0 && (u + v)[0] == u[0] && (u + v)[1..] == u[1..] + v
  {
  }

  /** One step of the rewrite where no match starts, on a text with first character `c` and tail `t`. */
  lemma RewriteNoMatchAt(s: string, c: char, t: string)
    requires |s| > 0 && IndexedWordAt(s).None? && s[0] == c && s[1..] == t
    ensures RewriteIndexes(s) == [c] + RewriteIndexes(t)
  {
    RewriteNoMatch(s);
  }

  /** A leading non-word character is copied. */
  lemma RewriteNonWordFront(v: string)
    requires |v| > 0 && !IsWordChar(v[0])
    ensures RewriteIndexes(v) == [v[0]] + RewriteIndexes(v[1..])
  {
    assert WordRun(v) == 0;
    RewriteNoMatch(v);
  }

  /** `u[digits]` at the front becomes `u.digits`. */
  lemma RewriteIndexFront(u: string, digits: string, rest: string)
    requires |u| > 0 && IsWord(u) && IsDigits(digits)
    ensures RewriteIndexes(u + "[" + digits + "]" + rest) == u + "." + digits + RewriteIndexes(rest)
  {
    IndexFrontMatch(u, digits, rest);
    IndexFrontSlices(u, digits, rest);
    RewriteAtMatch(u + "[" + digits + "]" + rest, |u|, |digits|, u, digits, rest);
  }

  /** A text whose front match has groups `u` and `digits`, followed by `rest`. */
  lemma RewriteAtMatch(s: string, w: nat, d: nat, u: string, digits: string, rest: string)
    requires IndexedWordAt(s) == Some(IndexMatch(w, d))
    requires w + 2 + d <= |s|
    requires s[..w] == u && s[w + 1..w + 1 + d] == digits && s[w + 2 + d..] == rest
    ensures RewriteIndexes(s) == u + "." + digits + RewriteIndexes(rest)
  {
    RewriteMatch(s, w, d);
  }

  /** The pattern matches `u[digits]` at the front, with groups `u` and `digits`. */
  lemma IndexFrontMatch(u: string, digits: string, rest: string)
    requires |u| > 0 && IsWord(u) && IsDigits(digits)
    ensures IndexedWordAt(u + "[" + digits + "]" + rest) == Some(IndexMatch(|u|, |digits|))
  {
    var s := u + "[" + digits + "]" + rest;
    var after := "]" + rest;
    assert s == u + ("[" + (digits + after));
    WordRunOfWord(u, "[" + (digits + after));
    assert s[|u| + 1..] == digits + after;
    DigitRunOfDigits(digits, after);
    assert s[|u| + 1 + |digits|] == ']';
  }

  /** The pieces of `u[digits]rest` at the positions the match names. */
  lemma IndexFrontSlices(u: string, digits: string, rest: string)
    ensures var s := u + "[" + digits + "]" + rest;
            |s| == |u| + 2 + |digits| + |rest|
            && s[..|u|] == u && s[|u| + 1..|u| + 1 + |digits|] == digits && s[|u| + 2 + |digits|..] == rest
  {
  }

  /** The dotted text parsePath intends for a suffix list: `.step` for each suffix. */
  function DottedSteps(xs: seq<Suffix>): string
  {
    if |xs| == 0 then "" else "." + SuffixStep(xs[0]) + DottedSteps(xs[1..])
  }

  lemma WellFormedTail(xs: seq<Suffix>)
    requires |xs| > 0 && WellFormedSuffixes(xs) && NoAdjacentIndexes(xs)
    ensures WellFormedSuffix(xs[0]) && WellFormedSuffixes(xs[1..]) && NoAdjacentIndexes(xs[1..])
  {
    assert forall i :: 0 <= i < |xs[1..]| ==> xs[1..][i] == xs[i + 1];
  }

  lemma DottedStepsCons(xs: seq<Suffix>)
    requires |xs| > 0
    ensures DottedSteps(xs) == "." + (SuffixStep(xs[0]) + DottedSteps(xs[1..]))
  {
    AppendAssoc(".", SuffixStep(xs[0]), DottedSteps(xs[1..]));
  }

  /** Without adjacent indexes, the rewrite turns every `[digits]` after `u` into `.digits`. */
  lemma {:induction false} RewriteGrammarPath(u: string, xs: seq<Suffix>)
    requires |u| > 0 && IsWord(u) && WellFormedSuffixes(xs) && NoAdjacentIndexes(xs)
    ensures RewriteIndexes(u + SuffixesText(xs)) == u + DottedSteps(xs)
    decreases |xs|, 1
  {
    if |xs| == 0 {
      forall i | 0 <= i < |u| ensures u[i] != '[' {
        assert IsWordChar(u[i]);
      }
      RewriteBracketFree(u);
      assert u + SuffixesText(xs) == u;
      assert u + DottedSteps(xs) == u;
    } else if xs[0].Field? {
      var v := SuffixesText(xs);
      assert v[0] == '.' by {
        SuffixesTextCons(xs);
        AppendAssoc(".", xs[0].name, SuffixesText(xs[1..]));
      }
      RewriteAfterWord(u, v);
      RewriteFieldSuffixes(xs);
    } else {
      WellFormedTail(xs);
      var digits := xs[0].digits;
      var rest := SuffixesText(xs[1..]);
      assert u + SuffixesText(xs) == u + "[" + digits + "]" + rest by {
        SuffixesTextCons(xs);
        AppendAssoc(u, "[" + digits + "]", rest);
      }
      RewriteIndexFront(u, digits, rest);
      assert RewriteIndexes(rest) == DottedSteps(xs[1..]) by {
        if |xs| == 1 {
          assert rest == "";
        } else {
          assert xs[1..][0] == xs[1];
          RewriteFieldSuffixes(xs[1..]);
        }
      }
      DottedStepsCons(xs);
      calc {
        u + "." + digits + RewriteIndexes(rest);
        { AppendAssoc(u + ".", digits, RewriteIndexes(rest)); }
        (u + ".") + (digits + DottedSteps(xs[1..]));
        { AppendAssoc(u, ".", digits + DottedSteps(xs[1..])); }
        u + DottedSteps(xs);
      }
    }
  }

  /** Suffix text that opens with `.name` is rewritten into its dotted steps. */
  lemma {:induction false} RewriteFieldSuffixes(xs: seq<Suffix>)
    requires |xs| > 0 && xs[0].Field?
    requires WellFormedSuffixes(xs) && NoAdjacentIndexes(xs)
    ensures RewriteIndexes(SuffixesText(xs)) == DottedSteps(xs)
    decreases |xs|, 0
  {
    WellFormedTail(xs);
    var name := xs[0].name;
    var rest := SuffixesText(xs[1..]);
    var v := SuffixesText(xs);
    assert v == "." + (name + rest) by {
      SuffixesTextCons(xs);
      AppendAssoc(".", name, rest);
    }
    assert v[1..] == name + rest;
    RewriteNonWordFront(v);
    RewriteGrammarPath(name, xs[1..]);
    DottedStepsCons(xs);
  }

  lemma {:induction false} JoinDottedSteps(u: string, xs: seq<Suffix>)
    ensures Join([u] + SuffixSteps(xs), '.') == u + DottedSteps(xs)
    decreases |xs|
  {
    if |xs| > 0 {
      JoinDottedSteps(SuffixStep(xs[0]), xs[1..]);
      assert ([u] + SuffixSteps(xs))[1..] == [SuffixStep(xs[0])] + SuffixSteps(xs[1..]);
    }
  }

  /**
   * For every path of the grammar in which no index directly follows another,
   * parsePath yields the identifier and then one step per suffix, in order.
   */
  lemma ParsePathOfGrammarPath(id: string, xs: seq<Suffix>)
    requires IsIdent(id) && WellFormedSuffixes(xs) && NoAdjacentIndexes(xs)
    ensures ParsePath(PathText(id, xs)) == [id] + SuffixSteps(xs)
  {
    RewriteGrammarPath(id, xs);
    JoinDottedSteps(id, xs);
    StepsDotFree(id, xs);
    ParseOfRewritten(PathText(id, xs), [id] + SuffixSteps(xs));
  }

  /** No step of a grammar path contains a dot. */
  lemma StepsDotFree(id: string, xs: seq<Suffix>)
    requires IsIdent(id) && WellFormedSuffixes(xs)
    ensures forall i :: 0 <= i < |[id] + SuffixSteps(xs)| ==> '.' !in ([id] + SuffixSteps(xs))[i]
  {
    var steps := [id] + SuffixSteps(xs);
    forall i | 0 <= i < |steps| ensures '.' !in steps[i] {
      var x := if i == 0 then Field(id) else xs[i - 1];
      assert steps[i] == SuffixStep(x);
      assert WellFormedSuffix(x);
      forall j | 0 <= j < |steps[i]| ensures steps[i][j] != '.' {
        match x
        case Field(name) => assert IsWordChar(name[j]);
        case Index(digits) => assert IsDigit(digits[j]);
      }
    }
  }

  /** A path whose rewrite is the dot-join of dot-free steps parses into exactly those steps. */
  lemma ParseOfRewritten(path: string, steps: seq<string>)
    requires |steps| >= 1 && forall i :: 0 <= i < |steps| ==> '.' !in steps[i]
    requires RewriteIndexes(path) == Join(steps, '.')
    ensures ParsePath(path) == steps
  {
    SplitJoin(steps, '.');
  }

  /** A lone `[digits]` has no word before it, so the rewrite leaves it alone. */
  lemma BracketedDigitsUnchanged(digits: string)
    requires IsDigits(digits)
    ensures RewriteIndexes("[" + digits + "]") == "[" + digits + "]"
  {
    var inner := "[" + digits + "]";
    var tail := digits + "]";
    assert inner == "[" + tail by { AppendAssoc("[", digits, "]"); }
    assert inner[1..] == tail;
    forall i | 0 <= i < |tail| ensures tail[i] != '[' {
      if i < |digits| { assert IsDigit(digits[i]); }
    }
    RewriteBracketFree(tail);
    RewriteNonWordFront(inner);
  }

  /**
   * The replacement does not revisit text it produced, so of two adjacent indexes
   * only the first is rewritten: `a[0][1]` is accepted by ValidateYAMLPath, yet
   * parsePath yields the two steps `a` and `0[1]`.
   */
  lemma ParsePathAdjacentIndexes(id: string, first: string, second: string)
    requires IsIdent(id) && IsDigits(first) && IsDigits(second)
    ensures ValidateYAMLPath(PathText(id, [Index(first), Index(second)])).None?
    ensures ParsePath(PathText(id, [Index(first), Index(second)])) == [id, first + "[" + second + "]"]
  {
    var xs := [Index(first), Index(second)];
    var inner := "[" + second + "]";
    var step := first + inner;
    var path := PathText(id, xs);
    assert SuffixesText(xs) == "[" + first + "]" + inner by {
      SuffixesTextCons(xs);
      assert xs[1..] == [Index(second)];
      SuffixesTextCons(xs[1..]);
      assert SuffixesText(xs[1..][1..]) == "";
    }
    assert path == id + "[" + first + "]" + inner by {
      AppendAssoc(id, "[" + first + "]", inner);
    }
    forall k | 0 <= k < |step| ensures step[k] != '.' {
      if k < |first| {
        assert IsDigit(first[k]);
      } else if 1 <= k - |first| < 1 + |second| {
        assert step[k] == second[k - |first| - 1];
        assert IsDigit(second[k - |first| - 1]);
      }
    }
    forall k | 0 <= k < |id| ensures id[k] != '.' {
      assert IsWordChar(id[k]);
    }
    GrammarPathsMatch(id, xs);
    assert Join([id, step], '.') == id + "." + step by {
      JoinCons([id, step], '.');
      assert [id, step][1..] == [step];
    }
    calc {
      RewriteIndexes(path);
      { RewriteIndexFront(id, first, inner); }
      id + "." + first + RewriteIndexes(inner);
      { BracketedDigitsUnchanged(second); }
      id + "." + first + inner;
      { AppendAssoc(id + ".", first, inner); }
      Join([id, step], '.');
    }
    SplitJoin([id, step], '.');
    assert step == first + "[" + second + "]" by {
      AppendAssoc(first, "[" + second, "]");
      AppendAssoc(first, "[", second);
    }
  }

  /** Characters that can occur in an accepted path. */
  predicate IsPathChar(c: char)
  {
    IsWordChar(c) || c == '.' || c == '[' || c == ']'
  }

  /** Every '.' opens a field: it is followed by a letter or '_'. */
  predicate DotsOpenFields(s: string)
  {
    forall i :: 0 <= i < |s| && s[i] == '.' ==> i + 1 < |s| && IsIdentStart(s[i + 1])
  }

  predicate PathCharsOnly(s: string)
  {
    forall i :: 0 <= i < |s| ==> IsPathChar(s[i])
  }

  lemma SuffixTextShape(x: Suffix, rest: string)
    requires WellFormedSuffix(x) && PathCharsOnly(rest) && DotsOpenFields(rest)
    ensures PathCharsOnly(SuffixText(x) + rest) && DotsOpenFields(SuffixText(x) + rest)
  {
    var head := SuffixText(x);
    var t := head + rest;
    forall i | 0 <= i < |t|
      ensures IsPathChar(t[i])
      ensures t[i] == '.' ==> i + 1 < |t| && IsIdentStart(t[i + 1])
    {
      if i >= |head| {
        assert t[i] == rest[i - |head|];
        if t[i] == '.' { assert t[i + 1] == rest[i - |head| + 1]; }
      } else {
        match x
        case Field(name) =>
          if i == 0 { assert t[1] == name[0]; }
          else { assert t[i] == name[i - 1]; assert IsWordChar(name[i - 1]); }
        case Index(digits) =>
          if 0 < i < |head| - 1 { assert t[i] == digits[i - 1]; assert IsDigit(digits[i - 1]); }
      }
    }
  }

  lemma {:induction false} SuffixesTextShape(xs: seq<Suffix>)
    requires WellFormedSuffixes(xs)
    ensures PathCharsOnly(SuffixesText(xs)) && DotsOpenFields(SuffixesText(xs))
    decreases |xs|
  {
    if |xs| > 0 {
      assert WellFormedSuffixes(xs[1..]) by {
        forall i | 0 <= i < |xs[1..]| ensures WellFormedSuffix(xs[1..][i]) {
          assert xs[1..][i] == xs[i + 1];
        }
      }
      SuffixesTextShape(xs[1..]);
      SuffixesTextCons(xs);
      assert WellFormedSuffix(xs[0]);
      SuffixTextShape(xs[0], SuffixesText(xs[1..]));
    }
  }

  /** Every string of the grammar is made of path characters, and each of its dots opens a field. */
  lemma PathTextShape(id: string, xs: seq<Suffix>)
    requires IsIdent(id) && WellFormedSuffixes(xs)
    ensures PathCharsOnly(PathText(id, xs)) && DotsOpenFields(PathText(id, xs))
  {
    var t := SuffixesText(xs);
    var s := PathText(id, xs);
    SuffixesTextShape(xs);
    forall i | 0 <= i < |s|
      ensures IsPathChar(s[i])
      ensures s[i] == '.' ==> i + 1 < |s| && IsIdentStart(s[i + 1])
    {
      if i < |id| {
        assert s[i] == id[i];
        assert IsWordChar(id[i]);
      } else {
        assert s[i] == t[i - |id|];
        if s[i] == '.' { assert s[i + 1] == t[i - |id| + 1]; }
      }
    }
  }

  /** A character outside `\w`, '.', '[' and ']' makes ValidateYAMLPath reject the path. */
  lemma ValidateRejectsForeignChar(path: string, i: nat)
    requires i < |path| && !IsPathChar(path[i])
    ensures ValidateYAMLPath(path) == Some(InvalidPathFormat(path))
  {
    ValidateYAMLPathIsGrammar(path);
    if InPathLanguage(path) {
      var id, xs :| IsIdent(id) && WellFormedSuffixes(xs) && path == PathText(id, xs);
      PathTextShape(id, xs);
      assert false;
    }
  }

  /**
   * An empty or misplaced field after a dot (`a..b`, `a.`, `a.[0]`, `a.0`) makes
   * ValidateYAMLPath reject the path.
   */
  lemma ValidateRejectsStrayDot(path: string, i: nat)
    requires i < |path| && path[i] == '.' && !(i + 1 < |path| && IsIdentStart(path[i + 1]))
    ensures ValidateYAMLPath(path) == Some(InvalidPathFormat(path))
  {
    ValidateYAMLPathIsGrammar(path);
    if InPathLanguage(path) {
      var id, xs :| IsIdent(id) && WellFormedSuffixes(xs) && path == PathText(id, xs);
      PathTextShape(id, xs);
      assert false;
    }
  }
}
