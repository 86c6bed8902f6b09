/** Result types and text helpers shared by the modules. */
module Common {

  datatype Option<+T> = None | Some(value: T)

  datatype Result<+T, +E> = Ok(value: T) | Err(error: E)

  // ---- strings.TrimSpace -------------------------------------------------------------

  /** unicode.IsSpace */
  predicate IsSpace(c: char) {
    c == '\t' || c == '\n' || c == '\U{0B}' || c == '\U{0C}' || c == '\r' || c == ' '
    || c == '\U{85}' || c == '\U{A0}' || c == '\U{1680}' || '\U{2000}' <= c <= '\U{200A}'
    || c == '\U{2028}' || c == '\U{2029}' || c == '\U{202F}' || c == '\U{205F}' || c == '\U{3000}'
  }

  function Trim(s: string): (r: string)
    ensures |r| <= |s|
    ensures r != "" ==> !IsSpace(r[0]) && !IsSpace(r[|r| - 1])
    ensures s == "" || (!IsSpace(s[0]) && !IsSpace(s[|s| - 1])) ==> r == s
  {
    if s == "" then s
    else if IsSpace(s[0]) then Trim(s[1..])
    else if IsSpace(s[|s| - 1]) then Trim(s[..|s| - 1])
    else s
  }

  lemma TrimIdempotent(s: string)
    ensures Trim(Trim(s)) == Trim(s)
  {
  }

  predicate AllSpace(s: string) {
    forall i :: 0 <= i < |s| ==> IsSpace(s[i])
  }

  /** r is s without space at the left and at the right. */
  ghost predicate Cut(s: string, left: string, r: string, right: string) {
    s == left + r + right && AllSpace(left) && AllSpace(right)
  }

  lemma CutLeft(s: string, left: string, r: string, right: string)
    requires s != "" && IsSpace(s[0]) && Cut(s[1..], left, r, right)
    ensures Cut(s, [s[0]] + left, r, right)
  {
    assert s == [s[0]] + s[1..];
  }

  lemma CutRight(s: string, left: string, r: string, right: string)
    requires s != "" && IsSpace(s[|s| - 1]) && Cut(s[..|s| - 1], left, r, right)
    ensures Cut(s, left, r, right + [s[|s| - 1]])
  {
    assert s == s[..|s| - 1] + [s[|s| - 1]];
  }

  /** Trimming cuts off space at both ends and nothing else. */
  lemma {:induction false} TrimCuts(s: string) returns (left: string, right: string)
    ensures Cut(s, left, Trim(s), right)
    decreases |s|
  {
    left, right := "", "";
    if s != "" && IsSpace(s[0]) {
      var l, r := TrimCuts(s[1..]);
      CutLeft(s, l, Trim(s[1..]), r);
      left, right := [s[0]] + l, r;
    } else if s != "" && IsSpace(s[|s| - 1]) {
      var l, r := TrimCuts(s[..|s| - 1]);
      CutRight(s, l, Trim(s[..|s| - 1]), r);
      left, right := l, r + [s[|s| - 1]];
    }
  }

  // ---- finite sets -------------------------------------------------------------------

  lemma CardSubset<T>(a: set<T>, b: set<T>)
    requires a <= b
    ensures |a| <= |b|
    ensures |a| == |b| ==> a == b
  {
    assert b == a + (b - a);
    assert |b| == |a| + |b - a|;
  }
}
