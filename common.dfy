/**
  Shared vocabulary of the documentation scripts: optional values and results,
  the header records produced by the markdown analyser, and the handful of
  Python string and list operations the scripts rely on (prefix and suffix
  tests, substring search, slicing with Python's index rules, joining).
*/
module Common {

  datatype Option<+T> = None | Some(value: T)

  datatype Result<+T, +E> = Ok(value: T) | Err(error: E)

  /** One markdown heading as the analyser reports it: its text, its depth
      (`#` is 1, `##` is 2, ...) and its line number in the document. */
  datatype Header = Header(text: string, level: int, line: int)

  predicate StartsWith(s: string, prefix: string) {
    |prefix| <= |s| && s[..|prefix|] == prefix
  }

  lemma AppendAssoc<T>(x: seq<T>, y: seq<T>, z: seq<T>)
    ensures (x + y) + z == x + (y + z)
  {
  }

  /** Text appended after a prefix leaves it a prefix. */
  lemma StartsWithExtend(s: string, prefix: string, more: string)
    requires StartsWith(s, prefix)
    ensures StartsWith(s + more, prefix)
  {
    assert (s + more)[..|prefix|] == s[..|prefix|];
  }

  predicate EndsWith(s: string, suffix: string) {
    |suffix| <= |s| && s[|s| - |suffix|..] == suffix
  }

  /** Text appended last is a suffix. */
  lemma EndsWithAppended(s: string, suffix: string)
    ensures EndsWith(s + suffix, suffix)
  {
    assert (s + suffix)[|s|..] == suffix;
  }

  /** Python's `str.removeprefix`. */
  function RemovePrefix(s: string, prefix: string): (r: string)
    ensures StartsWith(s, prefix) ==> prefix + r == s
    ensures !StartsWith(s, prefix) ==> r == s
  {
    if StartsWith(s, prefix) then s[|prefix|..] else s
  }

  /** Python's `str.removesuffix` (an empty suffix removes nothing). */
  function RemoveSuffix(s: string, suffix: string): (r: string)
    ensures EndsWith(s, suffix) ==> r + suffix == s
    ensures !EndsWith(s, suffix) ==> r == s
  {
    if EndsWith(s, suffix) then s[..|s| - |suffix|] else s
  }

  /** Python's `sub in s` on strings. */
  predicate Contains(s: string, sub: string) {
    exists i | 0 <= i <= |s| - |sub| :: OccursAt(s, sub, i)
  }

  predicate OccursAt(s: string, sub: string, i: int) {
    0 <= i <= |s| - |sub| && s[i..i + |sub|] == sub
  }

  /** `"".join(parts)`, built from the right so that a loop appending one
      part at a time keeps `out == Concat(parts[..i])`. */
  function Concat(parts: seq<string>): string {
    if parts == [] then "" else Concat(parts[..|parts| - 1]) + parts[|parts| - 1]
  }

  lemma {:induction false} ConcatAppend(a: seq<string>, b: seq<string>)
    ensures Concat(a + b) == Concat(a) + Concat(b)
    decreases |b|
  {
    if b == [] {
      assert a + b == a;
    } else {
      var b' := b[..|b| - 1];
      assert (a + b)[..|a + b| - 1] == a + b';
      assert (a + b)[|a + b| - 1] == b[|b| - 1];
      ConcatAppend(a, b');
      AppendAssoc(Concat(a), Concat(b'), b[|b| - 1]);
    }
  }

  /** The texts `render` gives the items, one after the other. */
  function ConcatMap<T>(render: T -> string, items: seq<T>): string {
    if items == [] then "" else ConcatMap(render, items[..|items| - 1]) + render(items[|items| - 1])
  }

  lemma {:induction false} ConcatMapAppend<T>(render: T -> string, a: seq<T>, b: seq<T>)
    ensures ConcatMap(render, a + b) == ConcatMap(render, a) + ConcatMap(render, b)
    decreases |b|
  {
    if b == [] {
      assert a + b == a;
    } else {
      var b' := b[..|b| - 1];
      assert (a + b)[..|a + b| - 1] == a + b' && (a + b)[|a + b| - 1] == b[|b| - 1];
      ConcatMapAppend(render, a, b');
      AppendAssoc(ConcatMap(render, a), ConcatMap(render, b'), render(b[|b| - 1]));
    }
  }

  lemma ConcatMapStep<T>(render: T -> string, items: seq<T>, i: nat)
    requires i < |items|
    ensures ConcatMap(render, items[..i + 1]) == ConcatMap(render, items[..i]) + render(items[i])
  {
    assert items[..i + 1][..i] == items[..i];
  }

  lemma ConcatMapSingle<T>(render: T -> string, item: T)
    ensures ConcatMap(render, [item]) == render(item)
  {
    assert [item][..0] == [];
  }

  /** The i-th item's text comes right after the texts of the items before
      it, and the texts of the items after it follow. */
  lemma ConcatMapAt<T>(render: T -> string, items: seq<T>, i: nat)
    requires i < |items|
    ensures ConcatMap(render, items) == ConcatMap(render, items[..i]) + render(items[i]) + ConcatMap(render, items[i + 1..])
  {
    assert items == items[..i + 1] + items[i + 1..];
    ConcatMapAppend(render, items[..i + 1], items[i + 1..]);
    ConcatMapStep(render, items, i);
  }

  lemma ConcatSingle(s: string)
    ensures Concat([s]) == s
  {
    assert [s][..0] == [];
  }

  /** The text a list of partial results joins to: the first error, if any
      result is one, else the texts in order. */
  function Collect<E>(chunks: seq<Result<string, E>>): Result<string, E> {
    if chunks == [] then Ok("")
    else
      match Collect(chunks[..|chunks| - 1])
      case Err(e) => Err(e)
      case Ok(prefix) =>
        match chunks[|chunks| - 1]
        case Err(e) => Err(e)
        case Ok(chunk) => Ok(prefix + chunk)
  }

  /** Joining two lists of results one after the other joins their texts. */
  lemma {:induction false} CollectAppend<E>(a: seq<Result<string, E>>, b: seq<Result<string, E>>)
    requires Collect(a).Ok? && Collect(b).Ok?
    ensures Collect(a + b) == Ok(Collect(a).value + Collect(b).value)
    decreases |b|
  {
    if b == [] {
      assert a + b == a;
      assert Collect(a).value + "" == Collect(a).value;
    } else {
      var b' := b[..|b| - 1];
      assert (a + b)[..|a + b| - 1] == a + b';
      assert (a + b)[|a + b| - 1] == b[|b| - 1];
      assert Collect(b').Ok? && b[|b| - 1].Ok?;
      CollectAppend(a, b');
      assert Collect(a + b) == Ok(Collect(a + b').value + b[|b| - 1].value);
      assert Collect(b).value == Collect(b').value + b[|b| - 1].value;
      assert Collect(a).value + Collect(b').value + b[|b| - 1].value
             == Collect(a).value + (Collect(b').value + b[|b| - 1].value);
    }
  }

  /** The join fails exactly when one of the results is an error, and then
      with the first such error. */
  lemma {:induction false} CollectFails<E>(chunks: seq<Result<string, E>>)
    ensures Collect(chunks).Err? <==> exists i | 0 <= i < |chunks| :: chunks[i].Err?
    ensures Collect(chunks).Err? ==>
              exists i | 0 <= i < |chunks| :: chunks[i] == Collect(chunks) &&
                                              forall j | 0 <= j < i :: chunks[j].Ok?
  {
    if chunks != [] {
      var init := chunks[..|chunks| - 1];
      CollectFails(init);
      assert forall i | 0 <= i < |init| :: init[i] == chunks[i];
    }
  }

  /** Once a prefix of the results fails, the whole join fails the same way. */
  lemma {:induction false} CollectStops<E>(chunks: seq<Result<string, E>>, n: nat)
    requires n <= |chunks| && Collect(chunks[..n]).Err?
    ensures Collect(chunks) == Collect(chunks[..n])
    decreases |chunks| - n
  {
    if n < |chunks| {
      assert chunks[..n + 1][..n] == chunks[..n];
      CollectStops(chunks, n + 1);
    } else {
      assert chunks[..n] == chunks;
    }
  }

  /** One more successful result extends the joined text by its text. */
  lemma CollectStep<E>(chunks: seq<Result<string, E>>, i: nat, text: string, chunk: string)
    requires i < |chunks| && Collect(chunks[..i]) == Ok(text) && chunks[i] == Ok(chunk)
    ensures Collect(chunks[..i + 1]) == Ok(text + chunk)
  {
    assert chunks[..i + 1][..i] == chunks[..i];
  }

  /** The same step for a loop that keeps the texts it joined as a list. */
  lemma CollectStepConcat<E>(chunks: seq<Result<string, E>>, i: nat, parts: seq<string>, chunk: string)
    requires i < |chunks| && Collect(chunks[..i]) == Ok(Concat(parts)) && chunks[i] == Ok(chunk)
    ensures Collect(chunks[..i + 1]) == Ok(Concat(parts + [chunk]))
  {
    CollectStep(chunks, i, Concat(parts), chunk);
    ConcatAppend(parts, [chunk]);
    ConcatSingle(chunk);
  }

  /** A failure after successes decides the whole result. */
  lemma CollectStopsAt<E>(chunks: seq<Result<string, E>>, i: nat)
    requires i < |chunks| && Collect(chunks[..i]).Ok? && chunks[i].Err?
    ensures Collect(chunks) == Err(chunks[i].error)
  {
    assert chunks[..i + 1][..i] == chunks[..i];
    CollectStops(chunks, i + 1);
  }

  /** Joining texts that each end with `suffix` gives a text that ends with it. */
  lemma CollectEndsWith<E>(chunks: seq<Result<string, E>>, suffix: string)
    requires chunks != [] && Collect(chunks).Ok?
    requires forall i | 0 <= i < |chunks| :: chunks[i].Ok? ==> EndsWith(chunks[i].value, suffix)
    ensures EndsWith(Collect(chunks).value, suffix)
  {
    var prefix := Collect(chunks[..|chunks| - 1]).value;
    var last := chunks[|chunks| - 1].value;
    assert (prefix + last)[|prefix + last| - |suffix|..] == last[|last| - |suffix|..];
  }

  /** The string `c * n` in Python: `n` copies of `c`, empty when `n <= 0`. */
  function Repeat(c: char, n: int): (r: string)
    ensures |r| == if n <= 0 then 0 else n
    ensures forall i | 0 <= i < |r| :: r[i] == c
    decreases n
  {
    if n <= 0 then "" else [c] + Repeat(c, n - 1)
  }

  /** Normalises one bound of a Python slice `s[i:j]` on a sequence of length `n`:
      negative bounds count from the end, and the result is clamped to `0..n`. */
  function SliceBound(k: int, n: nat): (r: nat)
    ensures r <= n
    ensures 0 <= k <= n ==> r == k
    ensures k < 0 && 0 <= k + n ==> r == k + n
    ensures k + n < 0 ==> r == 0
    ensures n < k ==> r == n
  {
    if k < 0 then (if k + n < 0 then 0 else k + n) else if k > n then n else k
  }

  /** Python's slice `s[i:j]`: never fails, and is empty when the normalised
      stop does not exceed the normalised start. */
  function PySlice<T>(s: seq<T>, i: int, j: int): (r: seq<T>)
    ensures 0 <= i <= j <= |s| ==> r == s[i..j]
    ensures SliceBound(j, |s|) <= SliceBound(i, |s|) ==> r == []
    ensures SliceBound(i, |s|) < SliceBound(j, |s|) ==>
              r == s[SliceBound(i, |s|)..SliceBound(j, |s|)]
  {
    var a := SliceBound(i, |s|);
    var b := SliceBound(j, |s|);
    if a < b then s[a..b] else []
  }
}
