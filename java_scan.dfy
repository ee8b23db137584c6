/**
  The regular expressions `gen_docs.py` runs over lines of Java source, as
  deterministic scanners.

  Each pattern is a fixed word, runs of one character class, and literals,
  where every run is followed by a character outside its class (or by a
  literal that cannot start it). Backtracking a greedy run therefore never
  helps, and a match at a given start, when there is one, is the one that
  takes every run to its end. `Search` tries the starts from left to right,
  as `re.search` does. Character classes are ASCII: `\w` is a letter, a
  digit or `_`; `\s` is Python's ASCII white space.
*/
module JavaScan {
  import opened Common
  import opened PyInt

  predicate IsWordChar(c: char) {
    ('a' <= c <= 'z') || ('A' <= c <= 'Z') || ('0' <= c <= '9') || c == '_'
  }

  /** The class `[\w.<>]` of a type token such as `List<String>`. */
  predicate IsTypeChar(c: char) {
    IsWordChar(c) || c == '.' || c == '<' || c == '>'
  }

  predicate AllOf(t: string, p: char -> bool) {
    forall k | 0 <= k < |t| :: p(t[k])
  }

  /** The end of the longest run of `p`-characters starting at `i`. */
  function RunEnd(s: string, i: nat, p: char -> bool): (r: nat)
    requires i <= |s|
    ensures i <= r <= |s|
    ensures forall k | i <= k < r :: p(s[k])
    ensures r < |s| ==> !p(s[r])
    decreases |s| - i
  {
    if i < |s| && p(s[i]) then RunEnd(s, i + 1, p) else i
  }

  /** A run that stops where its class stops is the longest one. */
  lemma RunEndUnique(s: string, i: nat, j: nat, p: char -> bool)
    requires i <= j <= |s|
    requires forall k | i <= k < j :: p(s[k])
    requires j < |s| ==> !p(s[j])
    ensures RunEnd(s, i, p) == j
  {
  }

  /** `re.search`: the leftmost start from `from` at which `at` matches. */
  function Search<T>(s: string, from: nat, at: (string, nat) -> Option<T>): (r: Option<(nat, T)>)
    ensures r.Some? ==> from <= r.value.0 <= |s| && at(s, r.value.0) == Some(r.value.1)
    ensures r.Some? ==> forall q | from <= q < r.value.0 :: at(s, q).None?
    ensures r.None? ==> forall q | from <= q <= |s| :: at(s, q).None?
    decreases |s| + 1 - from
  {
    if from > |s| then None
    else match at(s, from)
      case Some(v) => Some((from, v))
      case None => Search(s, from + 1, at)
  }

  /** The pattern `private\s+([\w.<>]+)\s+(\w+);` matches `s` from `p`,
      with groups `ty` and `name`: "private", then a white-space run, the
      type, a white-space run, the name and ";". */
  ghost predicate FieldMatch(s: string, p: nat, ty: string, name: string) {
    exists b: nat, c: nat, d: nat, e: nat {:trigger FieldSplit(s, p, b, c, d, e)} ::
      FieldSplit(s, p, b, c, d, e) && ty == s[b..c] && name == s[d..e]
  }

  /** The boundaries of the parts of a field match: the type is `s[b..c]`
      and the name `s[d..e]`. */
  predicate FieldSplit(s: string, p: nat, b: nat, c: nat, d: nat, e: nat) {
    && p + 7 < b < c < d < e < |s|
    && OccursAt(s, "private", p)
    && (forall k | p + 7 <= k < b :: IsSpace(s[k]))
    && (forall k | b <= k < c :: IsTypeChar(s[k]))
    && (forall k | c <= k < d :: IsSpace(s[k]))
    && (forall k | d <= k < e :: IsWordChar(s[k]))
    && s[e] == ';'
  }

  /** The field pattern tried at `p`: the type and the name. */
  function FieldAt(s: string, p: nat): (r: Option<(string, string)>)
    ensures r.Some? ==> FieldMatch(s, p, r.value.0, r.value.1)
  {
    if !OccursAt(s, "private", p) then None
    else
      var b := RunEnd(s, p + 7, IsSpace);
      var c := RunEnd(s, b, IsTypeChar);
      var d := RunEnd(s, c, IsSpace);
      var e := RunEnd(s, d, IsWordChar);
      if b == p + 7 || c == b || d == c || e == d || e == |s| || s[e] != ';' then None
      else
        assert FieldSplit(s, p, b, c, d, e);
        Some((s[b..c], s[d..e]))
  }

  /** Whatever the pattern admits at `p`, the scanner finds: no other split
      of the text is possible, since each run ends where its class ends. */
  lemma FieldAtComplete(s: string, p: nat, ty: string, name: string)
    requires FieldMatch(s, p, ty, name)
    ensures FieldAt(s, p) == Some((ty, name))
  {
    var b: nat, c: nat, d: nat, e: nat :| FieldSplit(s, p, b, c, d, e) && ty == s[b..c] && name == s[d..e];
    FieldSplitRuns(s, p, b, c, d, e);
  }

  /** Each boundary of a field match is where its run ends. */
  lemma FieldSplitRuns(s: string, p: nat, b: nat, c: nat, d: nat, e: nat)
    requires FieldSplit(s, p, b, c, d, e)
    ensures RunEnd(s, p + 7, IsSpace) == b && RunEnd(s, b, IsTypeChar) == c
    ensures RunEnd(s, c, IsSpace) == d && RunEnd(s, d, IsWordChar) == e
  {
    RunEndUnique(s, p + 7, b, IsSpace);
    RunEndUnique(s, b, c, IsTypeChar);
    RunEndUnique(s, c, d, IsSpace);
    RunEndUnique(s, d, e, IsWordChar);
  }

  /** `re.search(r'private\s+([\w.<>]+)\s+(\w+);', line)`: the leftmost
      field declaration on the line, as (type, name). */
  function SearchField(line: string): (r: Option<(string, string)>)
    ensures r.Some? <==> exists p | 0 <= p <= |line| :: FieldAt(line, p).Some?
  {
    match Search(line, 0, FieldAt)
    case None => None
    case Some((_, v)) => Some(v)
  }

  /** `@RequestBody\s+([\w]+)` tried at `p`: the request class name. */
  function RequestBodyAt(s: string, p: nat): (r: Option<string>)
    ensures r.Some? ==> |r.value| > 0 && AllOf(r.value, IsWordChar)
    ensures r.Some? ==> OccursAt(s, "@RequestBody", p)
  {
    if !OccursAt(s, "@RequestBody", p) then None
    else
      var b := RunEnd(s, p + 12, IsSpace);
      var e := RunEnd(s, b, IsWordChar);
      if b == p + 12 || e == b then None else Some(s[b..e])
  }

  /** `public\s+([\w.<>]+)` tried at `p`: the declared return type. */
  function PublicTypeAt(s: string, p: nat): (r: Option<string>)
    ensures r.Some? ==> |r.value| > 0 && AllOf(r.value, IsTypeChar)
    ensures r.Some? ==> OccursAt(s, "public", p)
  {
    if !OccursAt(s, "public", p) then None
    else
      var b := RunEnd(s, p + 6, IsSpace);
      var e := RunEnd(s, b, IsTypeChar);
      if b == p + 6 || e == b then None else Some(s[b..e])
  }

  /** Whether `(.*?)\)` can match from `g`: a `)` follows before any line
      break. */
  predicate CloseOnLine(s: string, g: nat)
    decreases |s| - g
  {
    g < |s| && (s[g] == ')' || (s[g] != '\n' && CloseOnLine(s, g + 1)))
  }

  lemma {:induction false} CloseOnLineWitness(s: string, g: nat)
    requires CloseOnLine(s, g)
    ensures exists k | g <= k < |s| :: s[k] == ')' && forall j | g <= j < k :: s[j] != '\n'
    decreases |s| - g
  {
    if s[g] != ')' {
      CloseOnLineWitness(s, g + 1);
      var k :| g + 1 <= k < |s| && s[k] == ')' && forall j | g + 1 <= j < k :: s[j] != '\n';
      assert forall j | g <= j < k :: s[j] != '\n';
    }
  }

  /** `new\s+BaseResponse\((.*?)\)` matches at `p` (its group is not used). */
  function BaseResponseAt(s: string, p: nat): (r: Option<()>)
    ensures r.Some? ==> OccursAt(s, "new", p)
  {
    if !OccursAt(s, "new", p) then None
    else
      var b := RunEnd(s, p + 3, IsSpace);
      if b > p + 3 && OccursAt(s, "BaseResponse(", b) && CloseOnLine(s, b + 13) then Some(()) else None
  }

  predicate HasBaseResponse(s: string) {
    Search(s, 0, BaseResponseAt).Some?
  }

  /** `"\)\s+(\w+)` matches at `g`. */
  predicate ClosesAt(s: string, g: nat) {
    && OccursAt(s, "\")", g)
    && RunEnd(s, g + 2, IsSpace) > g + 2
    && RunEnd(s, RunEnd(s, g + 2, IsSpace), IsWordChar) > RunEnd(s, g + 2, IsSpace)
  }

  /** No line break between `g` and `c`: `.` does not match one. */
  predicate NoBreak(s: string, g: nat, c: nat) {
    forall j | g <= j < c && j < |s| :: s[j] != '\n'
  }

  /** The rest of `@PathVariable\("(.*?)"\)\s+(\w+)` once `.*?` has consumed
      up to `g`: the lazy group grows one character at a time (never over a
      line break) until `")`, white space and a word follow. Gives where the
      group ends. */
  function PathVarClose(s: string, g: nat): (r: Option<nat>)
    requires g <= |s|
    ensures r.Some? ==> g <= r.value && ClosesAt(s, r.value) && NoBreak(s, g, r.value)
    decreases |s| - g
  {
    if ClosesAt(s, g) then Some(g)
    else if g < |s| && s[g] != '\n' then PathVarClose(s, g + 1)
    else None
  }

  /** A slice of a run of `p`-characters is all `p`-characters. */
  lemma SliceAllOf(s: string, i: nat, j: nat, p: char -> bool)
    requires i <= j <= |s|
    requires forall k | i <= k < j :: p(s[k])
    ensures AllOf(s[i..j], p)
  {
    forall k | 0 <= k < j - i ensures p(s[i..j][k]) {
      assert s[i..j][k] == s[i + k];
    }
  }

  /** The path-variable pattern tried at `p`: the quoted name, the parameter
      type, and where the match ends. */
  function PathVarAt(s: string, p: nat): (r: Option<(string, string, nat)>)
    ensures r.Some? ==> p < r.value.2 <= |s|
    ensures r.Some? ==> |r.value.1| > 0 && AllOf(r.value.1, IsWordChar)
    ensures r.Some? ==> '\n' !in r.value.0
  {
    if !OccursAt(s, "@PathVariable(\"", p) then None
    else match PathVarClose(s, p + 15)
      case None => None
      case Some(g) =>
        var h := RunEnd(s, g + 2, IsSpace);
        var e := RunEnd(s, h, IsWordChar);
        SliceAllOf(s, h, e, IsWordChar);
        var name := s[p + 15..g];
        assert forall k | 0 <= k < |name| :: name[k] == s[p + 15 + k];
        Some((name, s[h..e], e))
  }

  /** `re.findall(r'@PathVariable\("(.*?)"\)\s+(\w+)', s[from:])`: every
      non-overlapping match, left to right, as (name, type). */
  function FindPathVars(s: string, from: nat): (r: seq<(string, string)>)
    ensures forall i | 0 <= i < |r| :: |r[i].1| > 0 && AllOf(r[i].1, IsWordChar)
    decreases |s| + 1 - from
  {
    match Search(s, from, PathVarAt)
    case None => []
    case Some((q, m)) => [(m.0, m.1)] + FindPathVars(s, m.2)
  }
}
