/** Sanitising the error code stored with a failed delivery. */
module ErrorCode {
  import opened Basics

  const MAX_ERROR_CODE_CHARS: nat := 96
  const UNSPECIFIED := "UNSPECIFIED_DELIVERY_FAILURE"

  predicate Alphanumeric(c: char) { 'a' <= c <= 'z' || 'A' <= c <= 'Z' || '0' <= c <= '9' }

  predicate Kept(c: char) { Alphanumeric(c) || c == '_' || c == '-' }

  /** Every maximal run of characters that are not kept becomes one underscore. */
  function Collapse(s: string): (r: string)
    ensures forall i :: 0 <= i < |r| ==> Kept(r[i])
  {
    if s == [] then []
    else
      var front, c := Collapse(s[..|s| - 1]), s[|s| - 1];
      if Kept(c) then front + [c]
      else if |s| >= 2 && !Kept(s[|s| - 2]) then front
      else front + ['_']
  }

  function TrimStart(s: string): (r: string)
    ensures r != [] ==> r[0] != '_'
    ensures |r| <= |s| && r == s[|s| - |r|..]
  {
    if s != [] && s[0] == '_' then TrimStart(s[1..]) else s
  }

  function TrimEnd(s: string): (r: string)
    ensures r != [] ==> r[|r| - 1] != '_'
    ensures r <= s
  {
    if s != [] && s[|s| - 1] == '_' then TrimEnd(s[..|s| - 1]) else s
  }

  function Shorten(s: string): string { s[..Min(|s|, MAX_ERROR_CODE_CHARS)] }

  /** What the code is for: collapse, shorten, trim, and never leave it empty. */
  function Sanitized(value: string): string {
    var trimmed := TrimEnd(TrimStart(Shorten(Collapse(value))));
    if trimmed == [] then UNSPECIFIED else trimmed
  }

  predicate WellFormed(code: string) {
    && 1 <= |code| <= 96
    && code[0] != '_' && code[|code| - 1] != '_'
    && forall i :: 0 <= i < |code| ==> Kept(code[i])
  }

  lemma TrimmedIsPart(s: string, i: nat)
    requires i < |TrimEnd(TrimStart(s))|
    ensures |s| - |TrimStart(s)| + i < |s| && TrimEnd(TrimStart(s))[i] == s[|s| - |TrimStart(s)| + i]
  {
  }

  lemma TrimmedIsKept(s: string)
    requires forall i :: 0 <= i < |s| ==> Kept(s[i])
    ensures var r := TrimEnd(TrimStart(s));
            |r| <= |s| && (r != [] ==> r[0] != '_') && forall i :: 0 <= i < |r| ==> Kept(r[i])
  {
    var trimmed := TrimEnd(TrimStart(s));
    forall i | 0 <= i < |trimmed| ensures Kept(trimmed[i]) {
      TrimmedIsPart(s, i);
    }
  }

  lemma SanitizedIsWellFormed(value: string)
    ensures WellFormed(Sanitized(value))
  {
    TrimmedIsKept(Shorten(Collapse(value)));
    UnspecifiedIsWellFormed();
  }

  lemma UnspecifiedIsWellFormed()
    ensures WellFormed(UNSPECIFIED)
  {
  }

  lemma {:induction false} CollapseKeepsKept(s: string)
    requires forall i :: 0 <= i < |s| ==> Kept(s[i])
    ensures Collapse(s) == s
  {
    if s != [] {
      CollapseKeepsKept(s[..|s| - 1]);
    }
  }

  /** Well-formed codes are exactly the fixed points, so sanitising twice is
      sanitising once. */
  lemma WellFormedIffFixed(code: string)
    ensures WellFormed(code) <==> Sanitized(code) == code
  {
    if WellFormed(code) {
      CollapseKeepsKept(code);
    }
    SanitizedIsWellFormed(code);
  }

  lemma SanitizeIsIdempotent(value: string)
    ensures Sanitized(Sanitized(value)) == Sanitized(value)
  {
    SanitizedIsWellFormed(value);
    WellFormedIffFixed(Sanitized(value));
  }

  predicate Dropped(junk: string) { forall i :: 0 <= i < |junk| ==> !Kept(junk[i]) }

  lemma {:induction false} CollapseSnoc(s: string, c: char)
    ensures Collapse(s + [c]) ==
            if Kept(c) then Collapse(s) + [c]
            else if s != [] && !Kept(s[|s| - 1]) then Collapse(s) else Collapse(s) + ['_']
  {
    var t := s + [c];
    assert t[..|t| - 1] == s && t[|t| - 1] == c;
    assert s != [] ==> t[|t| - 2] == s[|s| - 1];
  }

  lemma {:induction false} CollapseOfRun(a: string, junk: string)
    requires junk != [] && Dropped(junk) && (a != [] ==> Kept(a[|a| - 1]))
    ensures Collapse(a + junk) == Collapse(a) + ['_']
    decreases |junk|
  {
    var front, c := junk[..|junk| - 1], junk[|junk| - 1];
    assert a + junk == (a + front) + [c];
    CollapseSnoc(a + front, c);
    if front == [] {
      assert a + front == a;
    } else {
      CollapseOfRun(a, front);
    }
  }

  lemma {:induction false} CollapseOneMore(x: string, front: string, c: char)
    requires Collapse(x + front) == Collapse(x) + Collapse(front) && (front == [] ==> Kept(c))
    ensures Collapse((x + front) + [c]) == Collapse(x) + Collapse(front + [c])
  {
    CollapseSnoc(x + front, c);
    CollapseSnoc(front, c);
    if front != [] {
      assert (x + front)[|x + front| - 1] == front[|front| - 1];
    }
  }

  lemma Reassociate(x: string, y: string, z: string)
    ensures x + (y + z) == (x + y) + z
  {
  }

  // A text that starts with a kept character is collapsed on its own.
  lemma {:induction false} CollapseBehind(x: string, b: string)
    requires b != [] ==> Kept(b[0])
    ensures Collapse(x + b) == Collapse(x) + Collapse(b)
    decreases |b|
  {
    if b == [] {
      assert x + b == x;
    } else {
      var front, c := b[..|b| - 1], b[|b| - 1];
      assert b == front + [c];
      Reassociate(x, front, [c]);
      CollapseBehind(x, front);
      CollapseOneMore(x, front, c);
    }
  }

  /** A maximal run of characters that are not kept, wherever it stands, becomes one
      underscore, and the text around it is collapsed on its own. */
  lemma {:induction false} RunBecomesOneUnderscore(a: string, junk: string, b: string)
    requires junk != [] && Dropped(junk) && (a != [] ==> Kept(a[|a| - 1])) && (b != [] ==> Kept(b[0]))
    ensures Collapse(a + junk + b) == Collapse(a) + ['_'] + Collapse(b)
  {
    CollapseOfRun(a, junk);
    CollapseBehind(a + junk, b);
  }

  predicate Underscores(s: string) { forall i :: 0 <= i < |s| ==> s[i] == '_' }

  lemma {:induction false} CollapseToUnderscores(value: string)
    requires forall i :: 0 <= i < |value| ==> !Alphanumeric(value[i]) && value[i] != '-'
    ensures Underscores(Collapse(value))
  {
    if value != [] {
      CollapseToUnderscores(value[..|value| - 1]);
    }
  }

  lemma {:induction false} UnderscoresAreTrimmed(s: string)
    requires Underscores(s)
    ensures TrimStart(s) == []
  {
    if s != [] {
      UnderscoresAreTrimmed(s[1..]);
    }
  }

  /** A code without a letter, digit or dash gives way to the fallback. */
  lemma {:induction false} NothingLeft(value: string)
    requires forall i :: 0 <= i < |value| ==> !Alphanumeric(value[i]) && value[i] != '-'
    ensures Sanitized(value) == "UNSPECIFIED_DELIVERY_FAILURE"
  {
    CollapseToUnderscores(value);
    var short := Shorten(Collapse(value));
    assert Underscores(short);
    UnderscoresAreTrimmed(short);
  }

  lemma {:induction false} CollapseGrows(s: string, n: nat)
    requires n <= |s|
    ensures Collapse(s[..n]) <= Collapse(s)
    decreases |s|
  {
    if n == |s| {
      assert s[..n] == s;
    } else {
      CollapseGrows(s[..|s| - 1], n);
      assert s[..|s| - 1][..n] == s[..n];
    }
  }

  /** The single pass that stops as soon as the output is full. */
  method SanitizeErrorCode(value: string) returns (code: string)
    ensures code == Sanitized(value)
  {
    var out := "";
    var lastWasSep := false;
    var i := 0;
    while i < |value| && |out| < MAX_ERROR_CODE_CHARS
      invariant 0 <= i <= |value|
      invariant out == Collapse(value[..i]) && |out| <= MAX_ERROR_CODE_CHARS
      invariant lastWasSep == (i > 0 && !Kept(value[i - 1]))
    {
      var ch := value[i];
      assert value[..i + 1][..i] == value[..i];
      if Kept(ch) {
        lastWasSep := false;
        out := out + [ch];
      } else if !lastWasSep {
        lastWasSep := true;
        out := out + ['_'];
      }
      i := i + 1;
    }
    CollapseGrows(value, i);
    assert i == |value| ==> value[..i] == value;
    assert out == Shorten(Collapse(value));
    var trimmed := TrimEnd(TrimStart(out));
    code := if trimmed == [] then UNSPECIFIED else trimmed;
  }
}
