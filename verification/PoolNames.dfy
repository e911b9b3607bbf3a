/**
 Names of pools and liquidity tokens: "[LP.|VT.|FD.]PROTOCOL.A-B-V1". Names are ASCII
 strings, one byte a character.
 */
module PoolNames {
  import opened Bytes

  type Str = seq<byte>

  const DASH: byte := 45
  const DOT: byte := 46
  const ZERO: byte := 48
  const NINE: byte := 57
  const UPPER_V: byte := 86
  const LOWER_V: byte := 118

  predicate IsDigit(c: byte) {
    ZERO <= c <= NINE
  }

  predicate IsV(c: byte) {
    c == UPPER_V || c == LOWER_V
  }

  /** "LP.", "VT." or "FD." */
  predicate IsTokenPrefix(p: Str) {
    p == [76, 80, DOT] || p == [86, 84, DOT] || p == [70, 68, DOT]
  }

  predicate IsLiquidityToken(name: Str) {
    |name| > 3 && IsTokenPrefix(name[..3])
  }

  function ExtractVersion(name: Str): Option<nat> {
    var n := |name|;
    if n > 3 && IsV(name[n - 2]) && name[n - 3] == DASH && IsDigit(name[n - 1]) then Some(name[n - 1] - ZERO)
    else None
  }

  function ExtractNameAndVersion(name: Str): Option<(Str, nat)> {
    if IsLiquidityToken(name) then
      if |name| > 6 && ExtractVersion(name).Some? then Some((name[3..|name| - 3], ExtractVersion(name).value)) else None
    else if |name| > 3 && ExtractVersion(name).Some? then Some((name[..|name| - 3], ExtractVersion(name).value))
    else None
  }

  /** "-V1" and the like. */
  function Suffix(v: byte, digit: nat): Str
    requires digit < 10
  {
    [DASH, v, ZERO + digit]
  }

  /** Stripping gives back what the version was appended to, exactly unless that is empty or looks like a token. */
  lemma StripsVersion(base: Str, v: byte, digit: nat)
    requires IsV(v) && digit < 10
    ensures ExtractNameAndVersion(base + Suffix(v, digit)) == Some((base, digit))
       <==> base != [] && !(|base| >= 3 && IsTokenPrefix(base[..3]))
  {
    var name := base + Suffix(v, digit);
    var n := |name|;
    assert name[n - 3] == DASH && name[n - 2] == v && name[n - 1] == ZERO + digit;
    assert name[..n - 3] == base;
    if |base| >= 3 {
      assert name[..3] == base[..3];
      assert |name[3..n - 3]| < |base|;
    } else {
      assert |name| > 3 ==> name[..3][2] == name[2] != DOT;
    }
  }

  /** The same for the name of a liquidity token, whose prefix is stripped too. */
  lemma StripsPrefixAndVersion(prefix: Str, base: Str, v: byte, digit: nat)
    requires IsTokenPrefix(prefix) && IsV(v) && digit < 10
    ensures ExtractNameAndVersion(prefix + base + Suffix(v, digit)) == Some((base, digit)) <==> base != []
  {
    var name := prefix + base + Suffix(v, digit);
    var n := |name|;
    assert name[..3] == prefix;
    assert name[n - 3] == DASH && name[n - 2] == v && name[n - 1] == ZERO + digit;
    assert name[3..n - 3] == base;
  }

  /** Whatever is stripped successfully was such a name. */
  lemma StrippedWasVersioned(name: Str)
    requires ExtractNameAndVersion(name).Some?
    ensures var (base, digit) := ExtractNameAndVersion(name).value;
      && base != []
      && digit < 10
      && (exists v :: IsV(v)
            && (name == base + Suffix(v, digit)
                || (IsTokenPrefix(name[..3]) && name == name[..3] + base + Suffix(v, digit))))
  {
    var (base, digit) := ExtractNameAndVersion(name).value;
    var v := name[|name| - 2];
    assert name[|name| - 3..] == Suffix(v, digit);
    if IsLiquidityToken(name) {
      assert name == name[..3] + base + Suffix(v, digit);
    } else {
      assert name == base + Suffix(v, digit);
    }
  }

  // ---- the latest-version index ----

  /** `full` strips to `key`, with this version. */
  predicate StripsTo(full: Str, key: Str, version: nat) {
    ExtractNameAndVersion(full) == Some((key, version))
  }

  /**
   What the index has to be for a set of full names: each stripped name leads to a full
   name of the set that strips to it, and none of those has a higher version.
   */
  ghost predicate IsLatestIndex(latest: map<Str, (Str, nat)>, names: set<Str>) {
    && (forall full, key, v :: full in names && StripsTo(full, key, v) ==> key in latest && v <= latest[key].1)
    && (forall key :: key in latest ==> latest[key].0 in names && StripsTo(latest[key].0, key, latest[key].1))
  }

  /** The first `n` names. */
  ghost function Elements(source: seq<Str>, n: nat): set<Str>
    requires n <= |source|
  {
    if n == 0 then {} else Elements(source, n - 1) + {source[n - 1]}
  }

  /** Among the first `n` names it is the first one that strips to the key with its version. */
  ghost predicate ComesFirst(source: seq<Str>, n: nat, key: Str, found: (Str, nat))
    requires n <= |source|
  {
    exists k :: 0 <= k < n && source[k] == found.0 && forall j :: 0 <= j < k ==> !StripsTo(source[j], key, found.1)
  }

  lemma {:induction false} ElementsHave(source: seq<Str>, n: nat, j: nat)
    requires j < n <= |source|
    ensures source[j] in Elements(source, n)
  {
    if j < n - 1 {
      ElementsHave(source, n - 1, j);
    }
  }

  /** An entry that is new is new because no name before stripped to its key with that version or a higher one. */
  lemma FirstStays(source: seq<Str>, n: nat, latest: map<Str, (Str, nat)>, latest': map<Str, (Str, nat)>)
    requires n < |source| && IsLatestIndex(latest, Elements(source, n))
    requires forall key :: key in latest ==> ComesFirst(source, n, key, latest[key])
    requires match ExtractNameAndVersion(source[n])
             case None => latest' == latest
             case Some((key, v)) =>
               if key in latest && v <= latest[key].1 then latest' == latest
               else latest' == latest[key := (source[n], v)]
    ensures forall key :: key in latest' ==> ComesFirst(source, n + 1, key, latest'[key])
  {
    forall key | key in latest'
      ensures ComesFirst(source, n + 1, key, latest'[key])
    {
      if key in latest && latest'[key] == latest[key] {
        assert ComesFirst(source, n, key, latest[key]);
      } else {
        forall j | 0 <= j < n
          ensures !StripsTo(source[j], key, latest'[key].1)
        {
          ElementsHave(source, n, j);
        }
      }
    }
  }

  /** What the index has to be for the first `n` names. */
  ghost predicate IsIndexTo(latest: map<Str, (Str, nat)>, source: seq<Str>, n: nat)
    requires n <= |source|
  {
    && IsLatestIndex(latest, Elements(source, n))
    && forall key :: key in latest ==> ComesFirst(source, n, key, latest[key])
  }

  lemma NextInIndex(latest: map<Str, (Str, nat)>, latest': map<Str, (Str, nat)>, source: seq<Str>, n: nat)
    requires n < |source| && IsIndexTo(latest, source, n)
    requires match ExtractNameAndVersion(source[n])
             case None => latest' == latest
             case Some((key, v)) =>
               if key in latest && v <= latest[key].1 then latest' == latest
               else latest' == latest[key := (source[n], v)]
    ensures IsIndexTo(latest', source, n + 1)
  {
    IndexGrows(latest, latest', Elements(source, n), source[n]);
    FirstStays(source, n, latest, latest');
  }

  /** `reinsert_latest_versions`, on the keys of the source in the order they are iterated in. */
  method ReinsertLatestVersions(source: seq<Str>, dest: map<Str, Str>)
    returns (dest': map<Str, Str>, latest: map<Str, (Str, nat)>)
    ensures IsLatestIndex(latest, Elements(source, |source|))
    ensures forall key :: key in latest ==> ComesFirst(source, |source|, key, latest[key])
    ensures dest' == dest + map key | key in latest :: latest[key].0
  {
    latest := map[];
    var i := 0;
    while i < |source|
      invariant 0 <= i <= |source|
      invariant IsIndexTo(latest, source, i)
    {
      ghost var before := latest;
      var full := source[i];
      match ExtractNameAndVersion(full) {
        case None =>
        case Some((key, version)) =>
          if key in latest {
            if latest[key].1 < version {
              latest := latest[key := (full, version)];
            }
          } else {
            latest := latest[key := (full, version)];
          }
      }
      NextInIndex(before, latest, source, i);
      i := i + 1;
    }
    dest' := InsertAll(latest, dest);
  }

  /** The second loop: every entry of the index goes into the destination. */
  method InsertAll(latest: map<Str, (Str, nat)>, dest: map<Str, Str>) returns (dest': map<Str, Str>)
    ensures dest' == dest + map key | key in latest :: latest[key].0
  {
    dest' := dest;
    var left := latest.Keys;
    while left != {}
      invariant left <= latest.Keys
      invariant dest' == dest + map key | key in latest && key !in left :: latest[key].0
      decreases left
    {
      var key :| key in left;
      dest' := dest'[key := latest[key].0];
      left := left - {key};
    }
  }

  /** One more name, and the index updated for it or rightly not. */
  lemma IndexGrows(latest: map<Str, (Str, nat)>, latest': map<Str, (Str, nat)>, names: set<Str>, full: Str)
    requires IsLatestIndex(latest, names)
    requires match ExtractNameAndVersion(full)
             case None => latest' == latest
             case Some((key, v)) =>
               if key in latest && v <= latest[key].1 then latest' == latest else latest' == latest[key := (full, v)]
    ensures IsLatestIndex(latest', names + {full})
  {
  }

  /** The order of iteration can only decide between full names of the same highest version. */
  lemma IndexIsDetermined(a: map<Str, (Str, nat)>, b: map<Str, (Str, nat)>, names: set<Str>)
    requires IsLatestIndex(a, names) && IsLatestIndex(b, names)
    ensures a.Keys == b.Keys && forall key :: key in a ==> a[key].1 == b[key].1
  {
    forall key | key in a
      ensures key in b && a[key].1 == b[key].1
    {
      assert StripsTo(a[key].0, key, a[key].1);
      assert StripsTo(b[key].0, key, b[key].1);
    }
    forall key | key in b
      ensures key in a
    {
      assert StripsTo(b[key].0, key, b[key].1);
    }
  }

  /**
   Nothing is ever taken out of the destination: after names have left the source it is
   the index of the source exactly when it had no other keys before.
   */
  lemma StaleKeysRemain(dest: map<Str, Str>, latest: map<Str, (Str, nat)>)
    ensures var index := map key | key in latest :: latest[key].0;
      dest + index == index <==> dest.Keys <= latest.Keys
  {
    var index := map key | key in latest :: latest[key].0;
    if dest + index == index {
      forall key | key in dest
        ensures key in latest
      {
        assert key in dest + index;
      }
    }
  }

  // ---- protocol and tokens ----

  datatype Protocol = Raydium | Saber | Orca

  function Lower(c: byte): byte {
    if 65 <= c <= 90 then c + 32 else c
  }

  function LowerAll(s: Str): (r: Str)
    ensures |r| == |s| && forall i :: 0 <= i < |s| ==> r[i] == Lower(s[i])
  {
    seq(|s|, i requires 0 <= i < |s| => Lower(s[i]))
  }

  /** "rdm", "raydium", "sbr", "saber", "orc" and "orca", in any case. */
  function ParseProtocol(s: Str): Option<Protocol> {
    var l := LowerAll(s);
    if l == [114, 100, 109] || l == [114, 97, 121, 100, 105, 117, 109] then Some(Raydium)
    else if l == [115, 98, 114] || l == [115, 97, 98, 101, 114] then Some(Saber)
    else if l == [111, 114, 99] || l == [111, 114, 99, 97] then Some(Orca)
    else None
  }

  /** The bytes of an ASCII string. */
  function Ascii(text: string): (s: Str)
    requires forall i :: 0 <= i < |text| ==> text[i] < 128 as char
  {
    seq(|text|, i requires 0 <= i < |text| => text[i] as int)
  }

  /** Capital letters are lowered, and nothing else. */
  lemma LowerIs(c: byte)
    ensures 'A' as int <= c <= 'Z' as int ==> Lower(c) - 'a' as int == c - 'A' as int
    ensures c < 'A' as int || c > 'Z' as int ==> Lower(c) == c
  {
  }

  /** The names that protocols go by, in any case. */
  lemma ProtocolNames(s: Str)
    ensures ParseProtocol(s) == Some(Raydium) <==> LowerAll(s) == Ascii("rdm") || LowerAll(s) == Ascii("raydium")
    ensures ParseProtocol(s) == Some(Saber) <==> LowerAll(s) == Ascii("sbr") || LowerAll(s) == Ascii("saber")
    ensures ParseProtocol(s) == Some(Orca) <==> LowerAll(s) == Ascii("orc") || LowerAll(s) == Ascii("orca")
  {
    assert Ascii("rdm") == [114, 100, 109] && Ascii("raydium") == [114, 97, 121, 100, 105, 117, 109];
    assert Ascii("sbr") == [115, 98, 114] && Ascii("saber") == [115, 97, 98, 101, 114];
    assert Ascii("orc") == [111, 114, 99] && Ascii("orca") == [111, 114, 99, 97];
  }

  /** The prefixes of liquidity tokens, and the characters that make up a version. */
  lemma PrefixesAndVersions(s: Str, c: byte)
    ensures IsTokenPrefix(s) <==> s == Ascii("LP.") || s == Ascii("VT.") || s == Ascii("FD.")
    ensures IsV(c) <==> c == 'V' as int || c == 'v' as int
    ensures IsDigit(c) <==> '0' as int <= c <= '9' as int
    ensures ZERO == '0' as int && DASH == '-' as int && DOT == '.' as int
  {
    assert Ascii("LP.") == [76, 80, 46] && Ascii("VT.") == [86, 84, 46] && Ascii("FD.") == [70, 68, 46];
  }

  /** `split(sep)`: the pieces between the separators, one more than there are separators. */
  function Split(s: Str, sep: byte): (r: seq<Str>)
    ensures |r| > 0
  {
    if |s| == 0 then [[]]
    else if s[0] == sep then [[]] + Split(s[1..], sep)
    else
      var rest := Split(s[1..], sep);
      [[s[0]] + rest[0]] + rest[1..]
  }

  lemma {:induction false} SplitWithout(a: Str, sep: byte)
    requires sep !in a
    ensures Split(a, sep) == [a]
  {
    if |a| == 0 {
    } else {
      SplitWithout(a[1..], sep);
      assert a == [a[0]] + a[1..];
    }
  }

  lemma {:induction false} SplitFirst(a: Str, sep: byte, rest: Str)
    requires sep !in a
    ensures Split(a + [sep] + rest, sep) == [a] + Split(rest, sep)
  {
    var s := a + [sep] + rest;
    if |a| == 0 {
      assert s[1..] == rest;
    } else {
      SplitFirst(a[1..], sep, rest);
      assert s[1..] == a[1..] + [sep] + rest;
      assert a == [a[0]] + a[1..];
    }
  }

  function ExtractTokenNames(name: Str): Option<(Protocol, Str, Str)> {
    var dots := Split(if IsLiquidityToken(name) then name[3..] else name, DOT);
    if |dots| < 2 || dots[0] == [] then None
    else
      var dashes := Split(dots[|dots| - 1], DASH);
      if dashes[0] == [] || (|dashes| > 1 && dashes[1] == []) then None
      else
        match ParseProtocol(dots[0])
        case None => None
        case Some(p) =>
          Some((p, dashes[0],
                if |dashes| > 1 && (ExtractVersion(name).None? || |dashes| > 2) then dashes[1] else []))
  }

  /** The name without the prefix of a liquidity token. */
  function Unprefixed(name: Str): Str {
    if IsLiquidityToken(name) then name[3..] else name
  }

  lemma {:induction false} SplitLast(a: Str, sep: byte, b: Str)
    requires sep !in b
    ensures var r := Split(a + [sep] + b, sep); |r| >= 2 && r[|r| - 1] == b
  {
    var s := a + [sep] + b;
    if |a| == 0 {
      assert s[1..] == b;
      SplitWithout(b, sep);
    } else {
      SplitLast(a[1..], sep, b);
      assert s[1..] == a[1..] + [sep] + b;
      LastPieceStays(s, sep);
    }
  }

  lemma LastPieceStays(s: Str, sep: byte)
    requires s != [] && |Split(s[1..], sep)| >= 2
    ensures var r, rest := Split(s, sep), Split(s[1..], sep); |r| >= 2 && r[|r| - 1] == rest[|rest| - 1]
  {
  }

  /** A name without a dot, or with an unknown protocol in front of its first dot, is refused. */
  lemma UnknownProtocol(name: Str, p: Str, rest: Str)
    requires DOT !in p && ParseProtocol(p).None?
    requires Unprefixed(name) == p || Unprefixed(name) == p + [DOT] + rest
    ensures ExtractTokenNames(name) == None
  {
    if Unprefixed(name) == p {
      SplitWithout(p, DOT);
    } else {
      SplitFirst(p, DOT, rest);
    }
  }

  /** So is one without a dot, and one whose last part has an empty first or second token. */
  lemma MissingTokens(name: Str, front: Str, last: Str, a: Str, b: Str)
    requires DOT !in last && DASH !in a
    ensures Unprefixed(name) == last ==> ExtractTokenNames(name) == None
    ensures Unprefixed(name) == front + [DOT] + last && BeginsEmpty(last) ==> ExtractTokenNames(name) == None
    ensures Unprefixed(name) == front + [DOT] + last && last == a + [DASH] + b && BeginsEmpty(b) ==>
      ExtractTokenNames(name) == None
  {
    if Unprefixed(name) == last {
      SplitWithout(last, DOT);
    } else if Unprefixed(name) == front + [DOT] + last {
      SplitLast(front, DOT, last);
      if last == a + [DASH] + b {
        SplitFirst(a, DASH, b);
      }
      LastPartCounts(name, last);
    }
  }

  lemma LastPartCounts(name: Str, last: Str)
    requires var dots := Split(Unprefixed(name), DOT); dots[|dots| - 1] == last
    ensures var dashes := Split(last, DASH);
      dashes[0] == [] || (|dashes| > 1 && dashes[1] == []) ==> ExtractTokenNames(name) == None
  {
  }

  /** Nothing stands before the first dash. */
  predicate BeginsEmpty(s: Str) {
    s == [] || s[0] == DASH
  }

  /** A token: not empty, without the two separators. */
  predicate IsToken(t: Str) {
    t != [] && DOT !in t && DASH !in t
  }

  lemma ProtocolIsNoPrefix(p: Str)
    requires ParseProtocol(p).Some?
    ensures |p| >= 3 && DOT !in p
  {
    var l := LowerAll(p);
    assert forall i :: 0 <= i < |p| ==> l[i] == Lower(p[i]);
    assert forall i :: 0 <= i < |l| ==> l[i] != DOT;
  }

  /** Where the pieces of "[prefix]PROTOCOL.body" are found. */
  lemma DotsOf(prefix: Str, p: Str, body: Str)
    requires prefix == [] || IsTokenPrefix(prefix)
    requires ParseProtocol(p).Some? && DOT !in body
    ensures var name := prefix + (p + [DOT] + body);
      Split(if IsLiquidityToken(name) then name[3..] else name, DOT) == [p, body]
  {
    ProtocolIsNoPrefix(p);
    var rest := p + [DOT] + body;
    var name := prefix + rest;
    if prefix == [] {
      assert name == rest;
      assert name[..3][2] == p[2];
    } else {
      assert name[..3] == prefix && name[3..] == rest;
    }
    SplitFirst(p, DOT, body);
    SplitWithout(body, DOT);
  }

  /** What is made of a name whose pieces are known. */
  lemma TokensFrom(name: Str, p: Str, body: Str, dashes: seq<Str>)
    requires Split(if IsLiquidityToken(name) then name[3..] else name, DOT) == [p, body]
    requires Split(body, DASH) == dashes && |dashes| > 1 && dashes[0] != [] && dashes[1] != []
    requires p != [] && ParseProtocol(p).Some?
    ensures ExtractTokenNames(name) ==
      Some((ParseProtocol(p).value, dashes[0],
            if ExtractVersion(name).None? || |dashes| > 2 then dashes[1] else []))
  {
  }

  /** A full name with a version: protocol and both tokens come back. */
  lemma TokensOfVersionedName(prefix: Str, p: Str, a: Str, b: Str, v: byte, digit: nat)
    requires prefix == [] || IsTokenPrefix(prefix)
    requires ParseProtocol(p).Some? && IsToken(a) && IsToken(b) && IsV(v) && digit < 10
    ensures ExtractTokenNames(prefix + (p + [DOT] + (a + [DASH] + (b + Suffix(v, digit)))))
         == Some((ParseProtocol(p).value, a, b))
  {
    var body := a + [DASH] + (b + Suffix(v, digit));
    assert DOT !in Suffix(v, digit);
    assert DOT !in body;
    VersionedBody(a, b, v, digit);
    DotsOf(prefix, p, body);
    ProtocolIsNoPrefix(p);
    TokensFrom(prefix + (p + [DOT] + body), p, body, [a, b, [v, ZERO + digit]]);
  }

  lemma VersionedBody(a: Str, b: Str, v: byte, digit: nat)
    requires IsToken(a) && IsToken(b) && IsV(v) && digit < 10
    ensures Split(a + [DASH] + (b + Suffix(v, digit)), DASH) == [a, b, [v, ZERO + digit]]
  {
    var version := [v, ZERO + digit];
    var tail := b + [DASH] + version;
    assert b + Suffix(v, digit) == tail;
    SplitFirst(a, DASH, tail);
    SplitFirst(b, DASH, version);
    SplitWithout(version, DASH);
  }

  /** Without a version the second token is lost exactly when it looks like one. */
  lemma TokensOfPlainName(prefix: Str, p: Str, a: Str, b: Str)
    requires prefix == [] || IsTokenPrefix(prefix)
    requires ParseProtocol(p).Some? && IsToken(a) && IsToken(b)
    ensures var name := prefix + (p + [DOT] + (a + [DASH] + b));
      var lost := |b| == 2 && IsV(b[0]) && IsDigit(b[1]);
      ExtractTokenNames(name) == Some((ParseProtocol(p).value, a, if lost then [] else b))
  {
    var body := a + [DASH] + b;
    PlainBody(a, b);
    DotsOf(prefix, p, body);
    ProtocolIsNoPrefix(p);
    TokensFrom(prefix + (p + [DOT] + body), p, body, [a, b]);
    VersionOfPlainName(prefix, p, a, b);
  }

  lemma PlainBody(a: Str, b: Str)
    requires IsToken(a) && IsToken(b)
    ensures DOT !in a + [DASH] + b && Split(a + [DASH] + b, DASH) == [a, b]
  {
    SplitFirst(a, DASH, b);
    SplitWithout(b, DASH);
  }

  lemma VersionOfPlainName(prefix: Str, p: Str, a: Str, b: Str)
    requires IsToken(b)
    ensures ExtractVersion(prefix + (p + [DOT] + (a + [DASH] + b))).Some? <==> |b| == 2 && IsV(b[0]) && IsDigit(b[1])
  {
    var front := prefix + (p + [DOT] + a);
    assert prefix + (p + [DOT] + (a + [DASH] + b)) == front + [DASH] + b;
    VersionAtEnd(front, b);
  }

  /** A last piece is taken for a version exactly when it is a V and a digit. */
  lemma VersionAtEnd(front: Str, b: Str)
    requires front != [] && IsToken(b)
    ensures ExtractVersion(front + [DASH] + b).Some? <==> |b| == 2 && IsV(b[0]) && IsDigit(b[1])
  {
    var name := front + [DASH] + b;
    var n := |name|;
    assert name[n - 1] == b[|b| - 1];
    if |b| == 1 {
      assert name[n - 2] == DASH;
    } else if |b| == 2 {
      assert name[n - 2] == b[0] && name[n - 3] == DASH;
    } else {
      assert b[|b| - 3] in b && name[n - 3] == b[|b| - 3];
    }
  }
}
