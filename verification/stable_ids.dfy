/**
 Stable ids: a prefix and the digest of the parts, each trimmed and case folded and all joined with bars.
 Different parts can therefore share an id without any collision of the digest: parts that differ in case
 or surrounding white space only, and parts that hold a bar themselves.
 */
module StableIds {
  import opened Texts

  /** Case folding of one character, and the hexadecimal digest of a text. */
  datatype Hasher = Hasher(fold: char -> string, digest: string -> string)

  function Fold(h: Hasher, s: string): string {
    if s == "" then "" else h.fold(s[0]) + Fold(h, s[1..])
  }

  function Normalize(h: Hasher, part: string): string {
    Fold(h, Strip(part))
  }

  function Joined(h: Hasher, parts: seq<string>): string {
    if parts == [] then ""
    else if |parts| == 1 then Normalize(h, parts[0])
    else Normalize(h, parts[0]) + "|" + Joined(h, parts[1..])
  }

  /** The prefixes in use are lower-case words joined by underscores, which `normalize_key` leaves alone. */
  function StableId(h: Hasher, prefix: string, parts: seq<string>): string {
    prefix + "_" + h.digest(Joined(h, parts))
  }

  // ---------------------------------------------------------------- what is known of the hasher

  function AsciiFold(c: char): char
    requires c as int < 128
  {
    if 'A' <= c <= 'Z' then c + 32 as char else c
  }

  predicate IsHexadecimal(s: string) {
    forall i :: 0 <= i < |s| ==> '0' <= s[i] <= '9' || 'a' <= s[i] <= 'f'
  }

  /** ASCII folds to lower case, nothing but the bar folds to a bar, and digests are hexadecimal and do not
      collide. */
  ghost predicate Faithful(h: Hasher) {
    && (forall c: char :: c as int < 128 ==> h.fold(c) == [AsciiFold(c)])
    && (forall c: char :: '|' in h.fold(c) ==> c == '|')
    && (forall s :: IsHexadecimal(h.digest(s)))
    && (forall a, b :: h.digest(a) == h.digest(b) ==> a == b)
  }

  /** A character normalizing leaves alone, wherever it stands, and that is no bar. */
  predicate Plain(h: Hasher, c: char) {
    !IsSpace(c) && c != '|' && h.fold(c) == [c]
  }

  predicate PlainText(h: Hasher, s: string) {
    forall i :: 0 <= i < |s| ==> Plain(h, s[i])
  }

  /** Lower-case ASCII letters, digits, hyphens and underscores. */
  predicate IsWord(s: string) {
    forall i :: 0 <= i < |s| ==> 'a' <= s[i] <= 'z' || '0' <= s[i] <= '9' || s[i] == '-' || s[i] == '_'
  }

  lemma {:induction false} WordIsPlain(h: Hasher, s: string)
    requires Faithful(h) && IsWord(s)
    ensures PlainText(h, s)
  {
  }

  lemma {:induction false} FoldPlain(h: Hasher, s: string)
    requires PlainText(h, s)
    ensures Fold(h, s) == s
  {
    if s != "" {
      FoldPlain(h, s[1..]);
      assert s == [s[0]] + s[1..];
    }
  }

  lemma {:induction false} NormalizePlain(h: Hasher, s: string)
    requires PlainText(h, s)
    ensures Normalize(h, s) == s
  {
    StripIff(s);
    FoldPlain(h, s);
  }

  lemma {:induction false} NormalizeWord(h: Hasher, s: string)
    requires Faithful(h) && IsWord(s)
    ensures Normalize(h, s) == s && '|' !in s
  {
    WordIsPlain(h, s);
    NormalizePlain(h, s);
  }

  lemma {:induction false} IdIsPlain(h: Hasher, prefix: string, parts: seq<string>)
    requires Faithful(h) && IsWord(prefix)
    ensures PlainText(h, StableId(h, prefix, parts)) && Normalize(h, StableId(h, prefix, parts)) == StableId(h, prefix, parts)
  {
    var id := StableId(h, prefix, parts);
    assert IsHexadecimal(h.digest(Joined(h, parts)));
    assert IsWord(id);
    WordIsPlain(h, id);
    NormalizePlain(h, id);
  }

  lemma {:induction false} StripLeftKeepsOut(s: string, c: char)
    requires c !in s
    ensures c !in StripLeft(s)
  {
    if s != "" && IsSpace(s[0]) { StripLeftKeepsOut(s[1..], c); }
  }

  lemma {:induction false} StripRightKeepsOut(s: string, c: char)
    requires c !in s
    ensures c !in StripRight(s)
  {
    if s != "" && IsSpace(s[|s| - 1]) { StripRightKeepsOut(s[..|s| - 1], c); }
  }

  lemma {:induction false} FoldKeepsBarOut(h: Hasher, s: string)
    requires Faithful(h) && '|' !in s
    ensures '|' !in Fold(h, s)
  {
    if s != "" {
      assert s[0] in s;
      FoldKeepsBarOut(h, s[1..]);
    }
  }

  lemma {:induction false} NoBarNormalized(h: Hasher, part: string)
    requires Faithful(h) && '|' !in part
    ensures '|' !in Normalize(h, part)
  {
    StripLeftKeepsOut(part, '|');
    StripRightKeepsOut(StripLeft(part), '|');
    FoldKeepsBarOut(h, Strip(part));
  }

  // ---------------------------------------------------------------- which parts share an id

  lemma {:induction false} SplitAtBar(a: string, x: string, b: string, y: string)
    requires '|' !in a && '|' !in b
    ensures a + "|" + x == b + "|" + y <==> a == b && x == y
  {
    if a + "|" + x == b + "|" + y {
      var s := a + "|" + x;
      assert s[|a|] == '|' && s[|b|] == (b + "|" + y)[|b|] == '|';
      assert |a| == |b|;
      assert a == s[..|a|] && b == (b + "|" + y)[..|b|];
      assert x == s[|a| + 1..] && y == (b + "|" + y)[|b| + 1..];
    }
  }

  lemma {:induction false} SameIdIff(h: Hasher, prefix: string, parts: seq<string>, parts': seq<string>)
    requires Faithful(h)
    ensures StableId(h, prefix, parts) == StableId(h, prefix, parts') <==> Joined(h, parts) == Joined(h, parts')
  {
    var n, id, id' := |prefix + "_"|, StableId(h, prefix, parts), StableId(h, prefix, parts');
    assert id[n..] == h.digest(Joined(h, parts)) && id'[n..] == h.digest(Joined(h, parts'));
  }

  lemma {:induction false} JoinedTwo(h: Hasher, a: string, b: string)
    ensures Joined(h, [a, b]) == Normalize(h, a) + "|" + Normalize(h, b)
  {
    assert [a, b][1..] == [b];
  }

  lemma {:induction false} JoinedThree(h: Hasher, a: string, b: string, c: string)
    ensures Joined(h, [a, b, c]) == Normalize(h, a) + "|" + (Normalize(h, b) + "|" + Normalize(h, c))
  {
    assert [a, b, c][1..] == [b, c];
    JoinedTwo(h, b, c);
  }

  ghost predicate SameParts(h: Hasher, parts: seq<string>, parts': seq<string>) {
    |parts| == |parts'| && forall i :: 0 <= i < |parts| ==> Normalize(h, parts[i]) == Normalize(h, parts'[i])
  }

  ghost predicate BarFree(parts: seq<string>) {
    forall i :: 0 <= i < |parts| ==> '|' !in parts[i]
  }

  /** Without bars in the parts an id names its normalized parts. */
  lemma {:induction false} BarFreePartsShareIff(h: Hasher, prefix: string, parts: seq<string>, parts': seq<string>)
    requires Faithful(h) && parts != [] && parts' != [] && BarFree(parts) && BarFree(parts')
    ensures StableId(h, prefix, parts) == StableId(h, prefix, parts') <==> SameParts(h, parts, parts')
  {
    SameIdIff(h, prefix, parts, parts');
    BarFreeJoins(h, parts, parts');
  }

  lemma {:induction false} BarFreeJoins(h: Hasher, parts: seq<string>, parts': seq<string>)
    requires Faithful(h) && parts != [] && parts' != [] && BarFree(parts) && BarFree(parts')
    ensures Joined(h, parts) == Joined(h, parts') <==> SameParts(h, parts, parts')
  {
    var a, b := Normalize(h, parts[0]), Normalize(h, parts'[0]);
    NoBarNormalized(h, parts[0]);
    NoBarNormalized(h, parts'[0]);
    if |parts| > 1 && |parts'| > 1 {
      var rest, rest' := parts[1..], parts'[1..];
      BarFreeJoins(h, rest, rest');
      SplitAtBar(a, Joined(h, rest), b, Joined(h, rest'));
      if SameParts(h, parts, parts') {
        assert forall i :: 0 <= i < |rest| ==> rest[i] == parts[i + 1] && rest'[i] == parts'[i + 1];
      }
      if SameParts(h, rest, rest') && a == b {
        forall i | 0 <= i < |parts| ensures Normalize(h, parts[i]) == Normalize(h, parts'[i]) {
          if i > 0 { assert rest[i - 1] == parts[i] && rest'[i - 1] == parts'[i]; }
        }
      }
    } else if |parts| > 1 {
      assert Joined(h, parts)[|a|] == '|';
    } else if |parts'| > 1 {
      assert Joined(h, parts')[|b|] == '|';
    }
  }

  // ---------------------------------------------------------------- such hashers exist

  function Unary(n: nat): string {
    seq(n, _ => 'a') + "b"
  }

  function UnaryText(s: string): string {
    if s == "" then "" else Unary(s[0] as int) + UnaryText(s[1..])
  }

  lemma {:induction false} UnaryTextIsHexadecimal(s: string)
    ensures IsHexadecimal(UnaryText(s))
  {
    if s != "" { UnaryTextIsHexadecimal(s[1..]); }
  }

  lemma {:induction false} UnarySplits(m: nat, x: string, n: nat, y: string)
    requires Unary(m) + x == Unary(n) + y
    ensures m == n && x == y
  {
    var s := Unary(m) + x;
    assert s[m] == 'b' && s[n] == (Unary(n) + y)[n] == 'b';
    assert m == n;
    assert x == s[m + 1..] && y == (Unary(n) + y)[n + 1..];
  }

  lemma {:induction false} UnaryTextIsInjective(a: string, b: string)
    requires UnaryText(a) == UnaryText(b)
    ensures a == b
  {
    if a != "" && b != "" {
      UnarySplits(a[0] as int, UnaryText(a[1..]), b[0] as int, UnaryText(b[1..]));
      UnaryTextIsInjective(a[1..], b[1..]);
      assert a == [a[0]] + a[1..] && b == [b[0]] + b[1..];
    }
  }

  lemma {:induction false} SomeHasherIsFaithful()
    ensures exists h :: Faithful(h)
  {
    var h := Hasher(c => if c as int < 128 then [AsciiFold(c)] else [c], UnaryText);
    forall s ensures IsHexadecimal(h.digest(s)) {
      UnaryTextIsHexadecimal(s);
    }
    forall a, b | h.digest(a) == h.digest(b) ensures a == b {
      UnaryTextIsInjective(a, b);
    }
    assert Faithful(h);
  }
}
