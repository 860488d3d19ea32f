// dbusEscape (src/dbus.hpp): every maximal run of characters outside
// [a-zA-Z0-9_/] is replaced by one '_', so that a name can be used inside a
// D-Bus object path.
module Dbus {

  /** The characters an escaped name keeps: ASCII letters, digits, '_'
    * and '/'. */
  predicate Allowed(c: char)
  {
    ('a' <= c <= 'z') || ('A' <= c <= 'Z') || ('0' <= c <= '9') || c == '_' || c == '/'
  }

  predicate AllAllowed(s: string)
  {
    forall i :: 0 <= i < |s| ==> Allowed(s[i])
  }

  /** `s` without its leading run of disallowed characters. */
  function SkipRun(s: string): (r: string)
    ensures |r| <= |s| && r == s[|s| - |r|..]
    ensures r != [] ==> Allowed(r[0])
    ensures forall i :: 0 <= i < |s| - |r| ==> !Allowed(s[i])
  {
    if s == [] || Allowed(s[0]) then s else SkipRun(s[1..])
  }

  /** The regular-expression replacement of `[^a-zA-Z0-9_/]+` by "_",
    * scanning left to right with the longest match at each position. */
  function DbusEscape(s: string): (r: string)
    decreases |s|
  {
    if s == [] then []
    else if Allowed(s[0]) then [s[0]] + DbusEscape(s[1..])
    else "_" + DbusEscape(SkipRun(s))
  }

  /** The escape as a one-pass scanner that remembers whether the previous
    * character was disallowed: an allowed character is copied, and only
    * the first disallowed character of a run writes the '_'. */
  function Scan(s: string, inRun: bool): string
    decreases |s|
  {
    if s == [] then []
    else if Allowed(s[0]) then [s[0]] + Scan(s[1..], false)
    else (if inRun then [] else "_") + Scan(s[1..], true)
  }

  /** Within a run, the scanner writes nothing until the run ends. */
  lemma {:induction false} ScanSkipsRun(s: string)
    requires s != [] && !Allowed(s[0])
    ensures Scan(s[1..], true) == Scan(SkipRun(s), true)
    decreases |s|
  {
    if |s| > 1 && !Allowed(s[1]) {
      ScanSkipsRun(s[1..]);
    }
  }

  /** The scanner at an allowed character or the end of the input writes the
    * same whatever it remembers. */
  lemma ScanAtRunEnd(s: string)
    requires s == [] || Allowed(s[0])
    ensures Scan(s, true) == Scan(s, false)
  {
  }

  /** The escape and the scanner agree on every input. */
  lemma {:induction false} EscapeIsScan(s: string)
    ensures DbusEscape(s) == Scan(s, false)
    decreases |s|
  {
    if s != [] {
      if Allowed(s[0]) {
        EscapeIsScan(s[1..]);
      } else {
        ScanSkipsRun(s);
        ScanAtRunEnd(SkipRun(s));
        EscapeIsScan(SkipRun(s));
      }
    }
  }

  /** The result is a valid object-path fragment, and never longer than the
    * input. */
  lemma {:induction false} EscapeAllowedShorter(s: string)
    ensures AllAllowed(DbusEscape(s)) && |DbusEscape(s)| <= |s|
    decreases |s|
  {
    if s != [] {
      if Allowed(s[0]) {
        EscapeAllowedShorter(s[1..]);
      } else {
        EscapeAllowedShorter(SkipRun(s));
      }
    }
  }

  /** The escape leaves a string unchanged exactly when it holds only
    * allowed characters. */
  lemma {:induction false} EscapeFixedPoint(s: string)
    ensures DbusEscape(s) == s <==> AllAllowed(s)
    decreases |s|
  {
    EscapeAllowedShorter(s);
    if s != [] && Allowed(s[0]) {
      EscapeFixedPoint(s[1..]);
      assert AllAllowed(s) <==> AllAllowed(s[1..]) by {
        if AllAllowed(s[1..]) {
          forall i | 0 <= i < |s|
            ensures Allowed(s[i])
          {
            if i > 0 {
              assert s[i] == s[1..][i - 1];
            }
          }
        }
      }
    }
  }

  /** Escaping twice is escaping once. */
  lemma EscapeIdempotent(s: string)
    ensures DbusEscape(DbusEscape(s)) == DbusEscape(s)
  {
    EscapeAllowedShorter(s);
    EscapeFixedPoint(DbusEscape(s));
  }

  /** The allowed characters of `s` other than '_', in order. */
  function Kept(s: string): string
  {
    if s == [] then [] else (if Allowed(s[0]) && s[0] != '_' then [s[0]] else []) + Kept(s[1..])
  }

  lemma {:induction false} KeptSkipsRun(s: string)
    ensures Kept(SkipRun(s)) == Kept(s)
    decreases |s|
  {
    if s != [] && !Allowed(s[0]) {
      KeptSkipsRun(s[1..]);
    }
  }

  /** Apart from the '_' characters, the output holds exactly the allowed
    * characters of the input, in order. */
  lemma {:induction false} EscapeKeepsAllowed(s: string)
    ensures Kept(DbusEscape(s)) == Kept(s)
    decreases |s|
  {
    if s != [] {
      if Allowed(s[0]) {
        EscapeKeepsAllowed(s[1..]);
        assert ([s[0]] + DbusEscape(s[1..]))[1..] == DbusEscape(s[1..]);
      } else {
        EscapeKeepsAllowed(SkipRun(s));
        KeptSkipsRun(s);
        assert ("_" + DbusEscape(SkipRun(s)))[1..] == DbusEscape(SkipRun(s));
      }
    }
  }
}
