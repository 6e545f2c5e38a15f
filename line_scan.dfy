/** The line loops the tools share in shape: find the first line that
    passes a test, replace the first such line in place (the
    `for i, line in enumerate(lines): if ...: lines[i] = ...; updated = True;
    break` loop of example_model_management.py and upgrade_models.py), and
    keep the lines that pass a test (a list comprehension with a
    condition). */
module LineScan {
  import opened Wrappers

  /** The index of the first line passing `p`, if any. */
  function FirstIndex(lines: seq<string>, p: string -> bool): (r: Option<nat>)
    ensures r.Some? ==> r.value < |lines| && p(lines[r.value]) && forall j :: 0 <= j < r.value ==> !p(lines[j])
    ensures r.None? ==> forall j :: 0 <= j < |lines| ==> !p(lines[j])
    decreases |lines|
  {
    if lines == [] then None
    else if p(lines[0]) then Some(0)
    else
      var rest := FirstIndex(lines[1..], p);
      assert forall j :: 1 <= j < |lines| ==> lines[j] == lines[1..][j - 1];
      match rest
      case None => None
      case Some(k) => Some(k + 1)
  }

  /** A passing line with no passing line before it is the first one. */
  lemma FirstIndexAt(lines: seq<string>, p: string -> bool, i: nat)
    requires i < |lines| && p(lines[i])
    requires forall j :: 0 <= j < i ==> !p(lines[j])
    ensures FirstIndex(lines, p) == Some(i)
  {
  }

  /** The scan loop with an early return: walks the lines and stops at the
      first one passing `p`. */
  method FindFirst(lines: seq<string>, p: string -> bool) returns (r: Option<nat>)
    ensures r == FirstIndex(lines, p)
  {
    for i := 0 to |lines|
      invariant forall j :: 0 <= j < i ==> !p(lines[j])
    {
      if p(lines[i]) {
        FirstIndexAt(lines, p, i);
        return Some(i);
      }
    }
    return None;
  }

  /** Whether a line passed `p`, and the lines with the first passing one
      replaced by `repl` of it. */
  function ReplaceFirst(lines: seq<string>, p: string -> bool, repl: string -> string): (r: (bool, seq<string>))
    ensures |r.1| == |lines|
    ensures r.0 <==> exists j :: 0 <= j < |lines| && p(lines[j])
    ensures !r.0 ==> r.1 == lines
    ensures r.0 ==> var i := FirstIndex(lines, p).value;
      && r.1[i] == repl(lines[i])
      && forall j :: 0 <= j < |lines| && j != i ==> r.1[j] == lines[j]
  {
    match FirstIndex(lines, p)
    case None => (false, lines)
    case Some(i) => (true, lines[i := repl(lines[i])])
  }

  /** The loop: walks the lines, rewrites the first passing one and stops. */
  method ReplaceFirstLine(lines: seq<string>, p: string -> bool, repl: string -> string) returns (updated: bool, out: seq<string>)
    ensures (updated, out) == ReplaceFirst(lines, p, repl)
  {
    out := lines;
    updated := false;
    for i := 0 to |lines|
      invariant out == lines && !updated
      invariant forall j :: 0 <= j < i ==> !p(lines[j])
    {
      if p(out[i]) {
        out := out[i := repl(out[i])];
        updated := true;
        FirstIndexAt(lines, p, i);
        return;
      }
    }
  }

  /** `[l for l in lines if p(l)]`. */
  function Filter(lines: seq<string>, p: string -> bool): (r: seq<string>)
    ensures |r| <= |lines|
    ensures forall k :: 0 <= k < |r| ==> p(r[k])
    decreases |lines|
  {
    if lines == [] then []
    else if p(lines[0]) then [lines[0]] + Filter(lines[1..], p)
    else Filter(lines[1..], p)
  }

  /** The kept lines start with the first passing line; nothing is kept
      when no line passes. */
  lemma {:induction false} FilterFirst(lines: seq<string>, p: string -> bool)
    ensures Filter(lines, p) == [] <==> FirstIndex(lines, p).None?
    ensures Filter(lines, p) != [] ==> Filter(lines, p)[0] == lines[FirstIndex(lines, p).value]
    decreases |lines|
  {
    if lines != [] && !p(lines[0]) {
      FilterFirst(lines[1..], p);
    }
  }

  /** The kept lines end with a passing line after which no line passes. */
  lemma {:induction false} FilterLast(lines: seq<string>, p: string -> bool)
    requires Filter(lines, p) != []
    ensures exists i :: (0 <= i < |lines| && p(lines[i]) && Filter(lines, p)[|Filter(lines, p)| - 1] == lines[i]
      && forall j :: i < j < |lines| ==> !p(lines[j]))
    decreases |lines|
  {
    var rest := Filter(lines[1..], p);
    if rest == [] {
      FilterFirst(lines[1..], p);
      assert forall j :: 1 <= j < |lines| ==> lines[j] == lines[1..][j - 1];
      assert p(lines[0]) && Filter(lines, p) == [lines[0]];
    } else {
      FilterLast(lines[1..], p);
      var k :| 0 <= k < |lines[1..]| && p(lines[1..][k]) && rest[|rest| - 1] == lines[1..][k]
        && forall j :: k < j < |lines[1..]| ==> !p(lines[1..][j]);
      assert lines[k + 1] == lines[1..][k];
      forall j | k + 1 < j < |lines| ensures !p(lines[j]) {
        assert lines[j] == lines[1..][j - 1];
      }
    }
  }

  /** The same ends for the lines kept from index `n` on, located in the
      whole list. */
  lemma FilterEndsFrom(lines: seq<string>, n: nat, p: string -> bool)
    requires n <= |lines| && Filter(lines[n..], p) != []
    ensures exists i :: (n <= i < |lines| && p(lines[i]) && (forall j :: n <= j < i ==> !p(lines[j]))
      && Filter(lines[n..], p)[0] == lines[i])
    ensures exists i :: (n <= i < |lines| && p(lines[i]) && (forall j :: i < j < |lines| ==> !p(lines[j]))
      && Filter(lines[n..], p)[|Filter(lines[n..], p)| - 1] == lines[i])
  {
    var body := lines[n..];
    var data := Filter(body, p);
    FilterFirst(body, p);
    var f := FirstIndex(body, p).value;
    assert lines[f + n] == body[f];
    forall j | n <= j < f + n ensures !p(lines[j]) {
      assert lines[j] == body[j - n];
    }
    FilterLast(body, p);
    var k :| 0 <= k < |body| && p(body[k]) && data[|data| - 1] == body[k]
      && forall j :: k < j < |body| ==> !p(body[j]);
    assert lines[k + n] == body[k];
    forall j | k + n < j < |lines| ensures !p(lines[j]) {
      assert lines[j] == body[j - n];
    }
  }
}
