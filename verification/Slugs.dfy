/** The two slug builders: the SCIM group slug rewrites "--" to "-" until nothing
    changes, the monitor slug scans once with a flag. Both are proved against one
    reference (map, squeeze separator runs, trim) and characterised by their fixed points. */
module Slugs {
  import opened Text

  predicate IsAlnum(c: char) {
    'a' <= c <= 'z' || '0' <= c <= '9'
  }

  predicate IsSep(c: char) {
    c == '-' || c == '_'
  }

  predicate ScimChar(c: char) {
    IsAlnum(c) || c == '-'
  }

  predicate MonitorChar(c: char) {
    IsAlnum(c) || IsSep(c)
  }

  /** Keeps a separator only when the character before it is not one. */
  function Squeeze(s: string, sep: CutSet): string {
    if s == [] then []
    else
      var r, c := Squeeze(s[..|s| - 1], sep), s[|s| - 1];
      if |s| >= 2 && Cuts(sep, c) && Cuts(sep, s[|s| - 2]) then r else r + [c]
  }

  predicate NoAdjacent(s: string, sep: CutSet) {
    forall i :: 0 < i < |s| ==> !(Cuts(sep, s[i - 1]) && Cuts(sep, s[i]))
  }

  /** What a slug may look like. */
  predicate IsSlug(s: string, ok: char -> bool, sep: CutSet) {
    && Over(s, ok)
    && (s != [] ==> !Cuts(sep, s[0]) && !Cuts(sep, s[|s| - 1]))
    && NoAdjacent(s, sep)
  }

  // ----- properties of Squeeze

  lemma SqueezeShape(s: string, sep: CutSet)
    ensures var r := Squeeze(s, sep);
            && NoAdjacent(r, sep)
            && (s != [] ==> r != [] && r[0] == s[0] && (Cuts(sep, r[|r| - 1]) <==> Cuts(sep, s[|s| - 1])))
  {
    if s != [] {
      SqueezeShape(s[..|s| - 1], sep);
    }
  }

  lemma SqueezeOver(s: string, sep: CutSet, ok: char -> bool)
    requires Over(s, ok)
    ensures Over(Squeeze(s, sep), ok)
  {
  }

  lemma SqueezeFixed(s: string, sep: CutSet)
    requires NoAdjacent(s, sep)
    ensures Squeeze(s, sep) == s
  {
    if s != [] {
      var t := s[..|s| - 1];
      assert NoAdjacent(t, sep);
      SqueezeFixed(t, sep);
      assert s == t + [s[|s| - 1]];
    }
  }

  /** Squeeze read from the left. */
  lemma {:induction false} SqueezeCons(c: char, t: string, sep: CutSet)
    ensures t != [] ==> Squeeze(t, sep) != []
    ensures Squeeze([c] + t, sep) ==
            [c] + (if t != [] && Cuts(sep, c) && Cuts(sep, t[0]) then Squeeze(t, sep)[1..] else Squeeze(t, sep))
  {
    SqueezeShape(t, sep);
    if t == [] {
      assert [c] + t == [c];
    } else {
      var s, u := [c] + t, t[..|t| - 1];
      assert s[..|s| - 1] == [c] + u;
      SqueezeCons(c, u, sep);
      SqueezeShape(u, sep);
    }
  }

  lemma {:induction false} SqueezeTrimLeft(s: string, sep: CutSet)
    ensures TrimLeft(Squeeze(s, sep), sep) == Squeeze(TrimLeft(s, sep), sep)
  {
    SqueezeShape(s, sep);
    if s != [] && Cuts(sep, s[0]) {
      var t := s[1..];
      assert s == [s[0]] + t;
      SqueezeCons(s[0], t, sep);
      SqueezeShape(t, sep);
      assert Squeeze(s, sep)[1..] == if t != [] && Cuts(sep, t[0]) then Squeeze(t, sep)[1..] else Squeeze(t, sep);
      SqueezeTrimLeft(t, sep);
    }
  }

  // ----- the rewriting loop

  predicate HasDoubleDash(s: string) {
    exists i :: 0 < i < |s| && s[i - 1] == '-' && s[i] == '-'
  }

  /** strings.ReplaceAll(s, "--", "-"): leftmost, non-overlapping. */
  function ReplaceDoubleDash(s: string): string {
    if s == [] then []
    else if |s| >= 2 && s[0] == '-' && s[1] == '-' then "-" + ReplaceDoubleDash(s[2..])
    else [s[0]] + ReplaceDoubleDash(s[1..])
  }

  lemma {:induction false} ReplaceShrinks(s: string)
    ensures |ReplaceDoubleDash(s)| <= |s|
    ensures HasDoubleDash(s) ==> |ReplaceDoubleDash(s)| < |s|
    ensures s != [] ==> ReplaceDoubleDash(s) != [] && ReplaceDoubleDash(s)[0] == s[0]
  {
    if s == [] {
    } else if |s| >= 2 && s[0] == '-' && s[1] == '-' {
      ReplaceShrinks(s[2..]);
    } else {
      ReplaceShrinks(s[1..]);
      if HasDoubleDash(s) {
        var i :| 0 < i < |s| && s[i - 1] == '-' && s[i] == '-';
        assert s[1..][i - 2] == '-' && s[1..][i - 1] == '-';
      }
    }
  }

  /** One rewriting pass does not change what the dash runs squeeze to. */
  lemma {:induction false} ReplaceKeepsSqueeze(s: string)
    ensures Squeeze(ReplaceDoubleDash(s), Dash) == Squeeze(s, Dash)
  {
    if s == [] {
    } else if |s| >= 2 && s[0] == '-' && s[1] == '-' {
      var t := s[2..];
      assert s == ['-'] + (['-'] + t);
      ReplaceKeepsSqueeze(t);
      ReplaceShrinks(t);
      SqueezeCons('-', t, Dash);
      SqueezeCons('-', ['-'] + t, Dash);
      SqueezeCons('-', ReplaceDoubleDash(t), Dash);
    } else {
      var t := s[1..];
      assert s == [s[0]] + t;
      ReplaceKeepsSqueeze(t);
      ReplaceShrinks(t);
      SqueezeCons(s[0], t, Dash);
      SqueezeCons(s[0], ReplaceDoubleDash(t), Dash);
    }
  }

  // ----- scimSlugify

  function ScimRune(c: char): string {
    if IsAlnum(c) || c == '-' then [c] else if c == ' ' || c == '_' then "-" else ""
  }

  function ScimMap(s: string): string {
    if s == [] then [] else ScimMap(s[..|s| - 1]) + ScimRune(s[|s| - 1])
  }

  lemma ScimMapShape(s: string)
    ensures Over(ScimMap(s), ScimChar)
    ensures Over(s, ScimChar) ==> ScimMap(s) == s
  {
  }

  function ScimSlug(name: string): string {
    var slug := Trim(Squeeze(ScimMap(ToLower(TrimSpace(name))), Dash), Dash);
    if slug == "" then "team" else slug
  }

  /** The loop as written terminates and squeezes every dash run to one dash. */
  method ScimSlugify(name: string) returns (slug: string)
    ensures slug == ScimSlug(name)
  {
    slug := ScimMap(ToLower(TrimSpace(name)));
    ghost var mapped := slug;
    while HasDoubleDash(slug)
      invariant Squeeze(slug, Dash) == Squeeze(mapped, Dash)
      decreases |slug|
    {
      ReplaceShrinks(slug);
      ReplaceKeepsSqueeze(slug);
      slug := ReplaceDoubleDash(slug);
    }
    SqueezeFixed(slug, Dash);
    slug := Trim(slug, Dash);
    if slug == "" {
      slug := "team";
    }
  }

  /** Trimming a squeezed string of slug characters gives a slug. */
  lemma {:induction false} TrimSqueezeIsSlug(s: string, ok: char -> bool, sep: CutSet)
    requires Over(s, ok)
    ensures IsSlug(Trim(Squeeze(s, sep), sep), ok, sep)
  {
    SqueezeShape(s, sep);
    SqueezeOver(s, sep, ok);
    TrimOver(Squeeze(s, sep), sep, ok);
    TrimShape(Squeeze(s, sep), sep);
    TrimKeepsNoAdjacent(Squeeze(s, sep), sep);
  }

  lemma {:induction false} TrimKeepsNoAdjacent(q: string, sep: CutSet)
    requires NoAdjacent(q, sep)
    ensures NoAdjacent(Trim(q, sep), sep)
  {
    TrimShape(q, sep);
    var t, r := TrimLeft(q, sep), Trim(q, sep);
    forall i | 0 < i < |r|
      ensures !(Cuts(sep, r[i - 1]) && Cuts(sep, r[i]))
    {
      var n := |q| - |t|;
      assert r[i - 1] == q[n + i - 1] && r[i] == q[n + i];
    }
  }

  /** Slug characters survive lower-casing and white-space trimming. */
  lemma {:induction false} PlainChars(s: string)
    requires Over(s, MonitorChar)
    ensures TrimSpace(s) == s && ToLower(s) == s
  {
    TrimFixed(s, Space);
    LowerFixed(s);
  }

  lemma {:induction false} SlugKeptByTrimSqueeze(s: string, ok: char -> bool, sep: CutSet)
    requires IsSlug(s, ok, sep)
    ensures Trim(Squeeze(s, sep), sep) == s
  {
    SqueezeFixed(s, sep);
    TrimFixed(s, sep);
  }

  /** The output is always a non-empty slug, and the non-empty slugs are exactly the fixed points. */
  lemma ScimSlugFixedPoints(name: string)
    ensures ScimSlug(name) != "" && IsSlug(ScimSlug(name), ScimChar, Dash)
    ensures ScimSlug(name) == name <==> name != "" && IsSlug(name, ScimChar, Dash)
    ensures ScimSlug(ScimSlug(name)) == ScimSlug(name)
  {
    ScimSlugIsSlug(name);
    ScimSlugKeeps(ScimSlug(name));
    if name != "" && IsSlug(name, ScimChar, Dash) {
      ScimSlugKeeps(name);
    }
  }

  lemma {:induction false} ScimSlugIsSlug(name: string)
    ensures ScimSlug(name) != "" && IsSlug(ScimSlug(name), ScimChar, Dash)
  {
    ScimMapShape(ToLower(TrimSpace(name)));
    TrimSqueezeIsSlug(ScimMap(ToLower(TrimSpace(name))), ScimChar, Dash);
    TeamIsSlug();
  }

  lemma TeamIsSlug()
    ensures IsSlug("team", ScimChar, Dash)
  {
  }

  lemma ScimSlugKeeps(s: string)
    requires s != "" && IsSlug(s, ScimChar, Dash)
    ensures ScimSlug(s) == s
  {
    PlainChars(s);
    ScimMapShape(s);
    SlugKeptByTrimSqueeze(s, ScimChar, Dash);
  }

  // ----- normalizeMonitorSlugString

  function MonitorRune(c: char): string {
    if IsAlnum(c) || IsSep(c) then [c] else if c == ' ' then "-" else ""
  }

  function MonitorMap(s: string): string {
    if s == [] then [] else MonitorMap(s[..|s| - 1]) + MonitorRune(s[|s| - 1])
  }

  lemma MonitorMapShape(s: string)
    ensures Over(MonitorMap(s), MonitorChar)
    ensures Over(s, MonitorChar) ==> MonitorMap(s) == s
  {
  }

  function MonitorSlug(raw: string): string {
    Trim(Squeeze(MonitorMap(TrimSpace(ToLower(raw))), DashUnderscore), DashUnderscore)
  }

  /** TrimLeft read from the right. */
  lemma {:induction false} TrimLeftSnoc(s: string, c: char, cut: CutSet)
    ensures TrimLeft(s + [c], cut) ==
            if TrimLeft(s, cut) == [] then (if Cuts(cut, c) then [] else [c]) else TrimLeft(s, cut) + [c]
  {
    if s == [] {
      assert s + [c] == [c];
    } else {
      assert (s + [c])[1..] == s[1..] + [c];
      if Cuts(cut, s[0]) {
        TrimLeftSnoc(s[1..], c, cut);
      }
    }
  }

  ghost function ScanStep(b: string, w: string): string {
    if w == "" || (IsSep(w[0]) && (b == [] || IsSep(b[|b| - 1]))) then b else b + w
  }

  /** What the scanner has written after the characters of `s`. */
  ghost function Scanned(s: string): string {
    if s == [] then [] else ScanStep(Scanned(s[..|s| - 1]), MonitorRune(s[|s| - 1]))
  }

  lemma {:induction false} ScannedIsSqueeze(s: string)
    ensures Scanned(s) == Squeeze(TrimLeft(MonitorMap(s), DashUnderscore), DashUnderscore)
  {
    if s != [] {
      var t := s[..|s| - 1];
      ScannedIsSqueeze(t);
      ScanStepMatches(MonitorMap(t), MonitorRune(s[|s| - 1]), MonitorMap(s));
    }
  }

  lemma {:induction false} ScanStepMatches(m: string, w: string, m': string)
    requires |w| <= 1 && m' == m + w
    ensures Squeeze(TrimLeft(m', DashUnderscore), DashUnderscore) ==
            ScanStep(Squeeze(TrimLeft(m, DashUnderscore), DashUnderscore), w)
  {
    if w == "" {
      assert m' == m;
    } else {
      var c, t := w[0], TrimLeft(m, DashUnderscore);
      assert w == [c] && m' == m + [c];
      TrimLeftSnoc(m, c, DashUnderscore);
      if t == [] {
        ScanFirst(c);
      } else {
        ScanNext(t, c);
      }
    }
  }

  /** The first character: a separator is dropped, anything else written. */
  lemma ScanFirst(c: char)
    ensures Squeeze([], DashUnderscore) == []
    ensures Squeeze(if Cuts(DashUnderscore, c) then [] else [c], DashUnderscore) == ScanStep([], [c])
  {
    SqueezeSnoc([], c, DashUnderscore);
    assert [] + [c] == [c];
  }

  lemma ScanNext(t: string, c: char)
    requires t != []
    ensures Squeeze(t + [c], DashUnderscore) == ScanStep(Squeeze(t, DashUnderscore), [c])
  {
    SqueezeSnoc(t, c, DashUnderscore);
  }

  lemma {:induction false} SqueezeSnoc(t: string, c: char, sep: CutSet)
    ensures var b := Squeeze(t, sep);
            && (t == [] <==> b == [])
            && Squeeze(t + [c], sep) == if b != [] && Cuts(sep, c) && Cuts(sep, b[|b| - 1]) then b else b + [c]
  {
    SqueezeShape(t, sep);
    assert (t + [c])[..|t|] == t;
  }

  /** The scanning loop: a builder and a flag for a separator just written. */
  method ScanMonitorSlug(s: string) returns (b: string)
    ensures b == Scanned(s)
  {
    b := "";
    var lastDash := false;
    for i := 0 to |s|
      invariant b == Scanned(s[..i])
      invariant lastDash <==> b != [] && IsSep(b[|b| - 1])
    {
      assert s[..i + 1][..i] == s[..i];
      if IsAlnum(s[i]) {
        b, lastDash := b + [s[i]], false;
      } else if IsSep(s[i]) {
        if b != [] && !lastDash {
          b, lastDash := b + [s[i]], true;
        }
      } else if s[i] == ' ' {
        if b != [] && !lastDash {
          b, lastDash := b + ['-'], true;
        }
      }
    }
    assert s[..|s|] == s;
  }

  /** The one-pass scanner computes the same slug as map, squeeze and trim. */
  method NormalizeMonitorSlugString(raw: string) returns (slug: string)
    ensures slug == MonitorSlug(raw)
  {
    var s := TrimSpace(ToLower(raw));
    if s == "" {
      assert MonitorMap(s) == [];
      return "";
    }
    var b := ScanMonitorSlug(s);
    ScannedIsSqueeze(s);
    ScannedTrims(MonitorMap(s));
    slug := Trim(b, DashUnderscore);
  }

  lemma {:induction false} ScannedTrims(m: string)
    ensures Trim(Squeeze(TrimLeft(m, DashUnderscore), DashUnderscore), DashUnderscore) ==
            Trim(Squeeze(m, DashUnderscore), DashUnderscore)
  {
    SqueezeTrimLeft(m, DashUnderscore);
    TrimLeftShape(Squeeze(m, DashUnderscore), DashUnderscore);
  }

  /** The output is always a slug, and the slugs are exactly the fixed points. */
  lemma MonitorSlugFixedPoints(raw: string)
    ensures IsSlug(MonitorSlug(raw), MonitorChar, DashUnderscore)
    ensures MonitorSlug(raw) == raw <==> IsSlug(raw, MonitorChar, DashUnderscore)
    ensures MonitorSlug(MonitorSlug(raw)) == MonitorSlug(raw)
  {
    MonitorSlugIsSlug(raw);
    MonitorSlugKeeps(MonitorSlug(raw));
    if IsSlug(raw, MonitorChar, DashUnderscore) {
      MonitorSlugKeeps(raw);
    }
  }

  lemma MonitorSlugIsSlug(raw: string)
    ensures IsSlug(MonitorSlug(raw), MonitorChar, DashUnderscore)
  {
    MonitorMapShape(TrimSpace(ToLower(raw)));
    TrimSqueezeIsSlug(MonitorMap(TrimSpace(ToLower(raw))), MonitorChar, DashUnderscore);
  }

  lemma MonitorSlugKeeps(s: string)
    requires IsSlug(s, MonitorChar, DashUnderscore)
    ensures MonitorSlug(s) == s
  {
    PlainChars(s);
    MonitorMapShape(s);
    SlugKeptByTrimSqueeze(s, MonitorChar, DashUnderscore);
  }

  // ----- the two builders agree away from underscores

  lemma TrimLowerCommute(s: string)
    ensures TrimSpace(ToLower(s)) == ToLower(TrimSpace(s))
  {
    TrimLeftLower(s);
    TrimRightLower(TrimLeft(s, Space));
  }

  lemma TrimLeftLower(s: string)
    ensures TrimLeft(ToLower(s), Space) == ToLower(TrimLeft(s, Space))
  {
    if s != [] {
      assert ToLower(s)[1..] == ToLower(s[1..]);
    }
  }

  lemma TrimRightLower(s: string)
    ensures TrimRight(ToLower(s), Space) == ToLower(TrimRight(s, Space))
  {
    if s != [] {
      assert ToLower(s)[..|s| - 1] == ToLower(s[..|s| - 1]);
    }
  }

  predicate NotUnderscore(c: char) {
    c != '_'
  }

  lemma MapsAgree(s: string)
    requires Over(s, NotUnderscore)
    ensures ScimMap(s) == MonitorMap(s) && Over(ScimMap(s), NotUnderscore)
  {
  }

  lemma SqueezeAgrees(s: string)
    requires Over(s, NotUnderscore)
    ensures Squeeze(s, Dash) == Squeeze(s, DashUnderscore)
  {
  }

  lemma TrimLeftAgrees(s: string)
    requires Over(s, NotUnderscore)
    ensures TrimLeft(s, Dash) == TrimLeft(s, DashUnderscore)
  {
  }

  lemma TrimRightAgrees(s: string)
    requires Over(s, NotUnderscore)
    ensures TrimRight(s, Dash) == TrimRight(s, DashUnderscore)
  {
  }

  /** On names without an underscore the rewriting loop and the one-pass scanner
      agree, except that an empty SCIM slug becomes "team". */
  lemma {:induction false} BuildersAgree(name: string)
    requires Over(name, NotUnderscore)
    ensures ScimSlug(name) == if MonitorSlug(name) == "" then "team" else MonitorSlug(name)
  {
    TrimLowerCommute(name);
    var s := ToLower(TrimSpace(name));
    TrimOver(name, Space, NotUnderscore);
    MapsAgree(s);
    var m := ScimMap(s);
    SqueezeAgrees(m);
    SqueezeOver(m, Dash, NotUnderscore);
    var q := Squeeze(m, Dash);
    TrimLeftAgrees(q);
    TrimOver(q, Dash, NotUnderscore);
    TrimRightAgrees(TrimLeft(q, Dash));
  }

  // ----- which characters become what

  lemma {:induction false} ScimMapConcat(a: string, b: string)
    ensures ScimMap(a + b) == ScimMap(a) + ScimMap(b)
  {
    if b == [] {
      assert a + b == a;
    } else {
      assert (a + b)[..|a + b| - 1] == a + b[..|b| - 1];
      ScimMapConcat(a, b[..|b| - 1]);
    }
  }

  lemma {:induction false} MonitorMapConcat(a: string, b: string)
    ensures MonitorMap(a + b) == MonitorMap(a) + MonitorMap(b)
  {
    if b == [] {
      assert a + b == a;
    } else {
      assert (a + b)[..|a + b| - 1] == a + b[..|b| - 1];
      MonitorMapConcat(a, b[..|b| - 1]);
    }
  }

  /** Letters, digits and separators apart, every character is dropped. */
  lemma OthersAreDropped(a: string, c: char, b: string)
    requires !IsAlnum(c) && c != '-' && c != '_' && c != ' '
    ensures ScimMap(a + [c] + b) == ScimMap(a + b) && MonitorMap(a + [c] + b) == MonitorMap(a + b)
  {
    assert ScimMap(a + [c]) == ScimMap(a) && MonitorMap(a + [c]) == MonitorMap(a) by {
      assert (a + [c])[..|a|] == a;
    }
    ScimMapConcat(a + [c], b);
    ScimMapConcat(a, b);
    MonitorMapConcat(a + [c], b);
    MonitorMapConcat(a, b);
  }

  /** Blanks and underscores read as dashes. */
  function Dashed(s: string): string {
    seq(|s|, i requires 0 <= i < |s| => if s[i] == ' ' || s[i] == '_' then '-' else s[i])
  }

  lemma {:induction false} ScimMapDashed(s: string)
    ensures ScimMap(Dashed(s)) == ScimMap(s)
  {
    if s != [] {
      ScimMapDashed(s[..|s| - 1]);
      assert Dashed(s)[..|s| - 1] == Dashed(s[..|s| - 1]);
    }
  }

  /** A name, trimmed, has the slug of the same name with dashes for blanks and underscores. */
  lemma SeparatorsAreDashes(name: string)
    ensures ScimSlug(Dashed(TrimSpace(name))) == ScimSlug(name)
  {
    var s := TrimSpace(name);
    TrimShape(name, Space);
    assert Dashed(s) == [] || (!IsSpace(Dashed(s)[0]) && !IsSpace(Dashed(s)[|s| - 1]));
    TrimFixed(Dashed(s), Space);
    assert ToLower(Dashed(s)) == Dashed(ToLower(s));
    ScimMapDashed(ToLower(s));
  }
}
