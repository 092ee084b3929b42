/** The string operations the updater applies: `str.rstrip('/')`,
    `str.strip()` and `str.replace(' ', '_')`. */
module Text {

  /** Python's `str.isspace` for one character: the characters `str.strip()`
      removes when called without an argument. */
  predicate IsSpace(c: char)
  {
    var n := c as int;
    (9 <= n <= 13) || (28 <= n <= 32) || n == 0x85 || n == 0xA0 || n == 0x1680
    || (0x2000 <= n <= 0x200A) || n == 0x2028 || n == 0x2029 || n == 0x202F
    || n == 0x205F || n == 0x3000
  }

  /** Removes every leading character that `drop` selects. */
  function DropLeading(s: string, drop: char -> bool): (r: string)
    ensures |r| <= |s| && r == s[|s| - |r|..]
    ensures r == [] || !drop(r[0])
    ensures forall i :: 0 <= i < |s| - |r| ==> drop(s[i])
  {
    if s != [] && drop(s[0]) then DropLeading(s[1..], drop) else s
  }

  /** Removes every trailing character that `drop` selects. */
  function DropTrailing(s: string, drop: char -> bool): (r: string)
    ensures |r| <= |s| && r == s[..|r|]
    ensures r == [] || !drop(r[|r| - 1])
    ensures forall i :: |r| <= i < |s| ==> drop(s[i])
  {
    if s != [] && drop(s[|s| - 1]) then DropTrailing(s[..|s| - 1], drop) else s
  }

  /** `s.rstrip('/')`. */
  function RStripSlash(s: string): (r: string)
    ensures |r| <= |s| && r == s[..|r|]
    ensures r == [] || r[|r| - 1] != '/'
    ensures forall i :: |r| <= i < |s| ==> s[i] == '/'
  {
    DropTrailing(s, c => c == '/')
  }

  /** Stripping is idempotent: a stored base URL stripped again is unchanged. */
  lemma RStripSlashIdempotent(s: string)
    ensures RStripSlash(RStripSlash(s)) == RStripSlash(s)
  {
  }

  /** `s.strip()`. */
  function Strip(s: string): (r: string)
    ensures |r| <= |s|
    ensures r != [] ==> !IsSpace(r[0]) && !IsSpace(r[|r| - 1])
    ensures exists k :: 0 <= k <= |s| - |r| && IsStrippedAt(s, r, k)
    ensures r == [] <==> forall i :: 0 <= i < |s| ==> IsSpace(s[i])
  {
    var lead := DropLeading(s, IsSpace);
    var r := DropTrailing(lead, IsSpace);
    assert IsStrippedAt(s, r, |s| - |lead|);
    r
  }

  /** `r` is `s` with the `k` characters before it and those after it being whitespace. */
  predicate IsStrippedAt(s: string, r: string, k: nat)
    requires k + |r| <= |s|
  {
    && r == s[k..k + |r|]
    && (forall i :: 0 <= i < k ==> IsSpace(s[i]))
    && (forall i :: k + |r| <= i < |s| ==> IsSpace(s[i]))
  }

  /** `t.replace(' ', '_')`. */
  function Underscored(t: string): (r: string)
    ensures |r| == |t|
    ensures forall i :: 0 <= i < |t| ==> r[i] == (if t[i] == ' ' then '_' else t[i])
  {
    if t == [] then [] else [if t[0] == ' ' then '_' else t[0]] + Underscored(t[1..])
  }
}
