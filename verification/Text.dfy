/** String helpers of the Go standard library, over ASCII: white space, lower case,
    trimming by a cut set, and the byte-wise string order. */
module Text {

  predicate IsSpace(c: char) {
    c == ' ' || '\t' <= c <= '\r'
  }

  /** The cut sets used by the callers: white space, "-" and "-_". */
  datatype CutSet = Space | Dash | DashUnderscore

  predicate Cuts(cut: CutSet, c: char) {
    match cut
    case Space => IsSpace(c)
    case Dash => c == '-'
    case DashUnderscore => c == '-' || c == '_'
  }

  function LowerChar(c: char): char {
    if 'A' <= c <= 'Z' then (c as int + 32) as char else c
  }

  /** Every character of `s` is allowed. */
  predicate Over(s: string, ok: char -> bool) {
    forall i :: 0 <= i < |s| ==> ok(s[i])
  }

  function ToLower(s: string): (r: string)
    ensures |r| == |s|
    ensures forall i :: 0 <= i < |s| ==> r[i] == LowerChar(s[i])
  {
    seq(|s|, i requires 0 <= i < |s| => LowerChar(s[i]))
  }

  predicate EqualFold(a: string, b: string) {
    ToLower(a) == ToLower(b)
  }

  function TrimLeft(s: string, cut: CutSet): string {
    if s != [] && Cuts(cut, s[0]) then TrimLeft(s[1..], cut) else s
  }

  function TrimRight(s: string, cut: CutSet): string {
    if s != [] && Cuts(cut, s[|s| - 1]) then TrimRight(s[..|s| - 1], cut) else s
  }

  function Trim(s: string, cut: CutSet): string {
    TrimRight(TrimLeft(s, cut), cut)
  }

  lemma TrimLeftShape(s: string, cut: CutSet)
    ensures var r := TrimLeft(s, cut);
            && (r == [] || !Cuts(cut, r[0]))
            && |r| <= |s| && r == s[|s| - |r|..]
  {
  }

  lemma TrimRightShape(s: string, cut: CutSet)
    ensures var r := TrimRight(s, cut);
            && (r == [] || !Cuts(cut, r[|r| - 1]))
            && r <= s
  {
  }

  /** Trimming cuts a slice out of `s` with no cut character at either end. */
  lemma TrimShape(s: string, cut: CutSet)
    ensures var t, r := TrimLeft(s, cut), Trim(s, cut);
            && (r == [] || (!Cuts(cut, r[0]) && !Cuts(cut, r[|r| - 1])))
            && |r| <= |t| <= |s| && r == s[|s| - |t|..|s| - |t| + |r|]
  {
    TrimLeftShape(s, cut);
    TrimRightShape(TrimLeft(s, cut), cut);
  }

  function TrimSpace(s: string): string {
    Trim(s, Space)
  }

  lemma TrimOver(s: string, cut: CutSet, ok: char -> bool)
    requires Over(s, ok)
    ensures Over(TrimLeft(s, cut), ok) && Over(Trim(s, cut), ok)
  {
    TrimLeftShape(s, cut);
    TrimShape(s, cut);
  }

  /** A string with no cut character at either end is left as it is. */
  lemma TrimFixed(s: string, cut: CutSet)
    requires s == [] || (!Cuts(cut, s[0]) && !Cuts(cut, s[|s| - 1]))
    ensures Trim(s, cut) == s
  {
  }

  lemma LowerFixed(s: string)
    requires forall i :: 0 <= i < |s| ==> !('A' <= s[i] <= 'Z')
    ensures ToLower(s) == s
  {
  }

  lemma LowerIdempotent(s: string)
    ensures ToLower(ToLower(s)) == ToLower(s)
  {
  }

  /** The first position of `c`, or the length. */
  function IndexOf(s: string, c: char): (i: nat)
    ensures i <= |s| && c !in s[..i] && (i < |s| ==> s[i] == c)
  {
    if s == [] || s[0] == c then 0
    else
      var i := 1 + IndexOf(s[1..], c);
      assert s[..i] == [s[0]] + s[1..][..i - 1];
      i
  }

  lemma IndexOfFirst(s: string, c: char, i: nat)
    requires i <= |s| && c !in s[..i] && (i < |s| ==> s[i] == c)
    ensures IndexOf(s, c) == i
  {
  }

  /** Go compares strings byte by byte; a proper prefix comes first. */
  predicate Less(a: string, b: string) {
    b != [] && (a == [] || a[0] < b[0] || (a[0] == b[0] && Less(a[1..], b[1..])))
  }

  lemma {:induction false} LessTrichotomy(a: string, b: string)
    ensures Less(a, b) || a == b || Less(b, a)
    ensures !(Less(a, b) && Less(b, a))
    ensures !Less(a, a)
  {
    if a != [] {
      LessTrichotomy(a[1..], a[1..]);
      if b != [] {
        LessTrichotomy(a[1..], b[1..]);
        assert a == [a[0]] + a[1..] && b == [b[0]] + b[1..];
      }
    }
  }

  lemma {:induction false} LessTransitive(a: string, b: string, c: string)
    requires Less(a, b) && Less(b, c)
    ensures Less(a, c)
  {
    if a != [] && a[0] == b[0] && b[0] == c[0] {
      LessTransitive(a[1..], b[1..], c[1..]);
    }
  }
}
