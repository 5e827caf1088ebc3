/** The names of generated claims: truncation to a DNS label, ownership by prefix, and collisions. */
module ClaimNames {

  // The DNS-1123 label limit of RFC 1123, and what a "-" and an 8 character hash leave of it.
  const LABEL_MAX := 63
  const PREFIX_MAX := 54

  predicate IsHex(c: char) {
    '0' <= c <= '9' || 'a' <= c <= 'f'
  }

  /** The first four bytes of a SHA-256 digest in hexadecimal. */
  type Digest = s: string | |s| == 8 && forall i | 0 <= i < |s| :: IsHex(s[i]) witness "00000000"

  /** strings.TrimRight(s, "-"). */
  function TrimRight(s: string): (r: string)
    ensures r <= s
    ensures r == [] || r[|r| - 1] != '-'
    ensures forall i | |r| <= i < |s| :: s[i] == '-'
  {
    if s != [] && s[|s| - 1] == '-' then TrimRight(s[..|s| - 1]) else s
  }

  /** truncateDNS1123Label, the hash being that of the whole name. */
  function Truncate(name: string, hash: string -> Digest): (r: string)
    ensures |r| <= LABEL_MAX
  {
    if |name| <= LABEL_MAX then name
    else
      var prefix := TrimRight(name[..PREFIX_MAX]);
      if prefix == [] then hash(name) else prefix + "-" + hash(name)
  }

  /** The untruncated name of the claim of one container and device config. */
  function RawName(namespace: string, owner: string, container: string, suffix: string): string {
    var base := namespace + "-" + owner + "-" + container;
    if suffix != [] then base + "-" + suffix else base
  }

  function ClaimName(namespace: string, owner: string, container: string, suffix: string, hash: string -> Digest)
    : string
  {
    Truncate(RawName(namespace, owner, container, suffix), hash)
  }

  predicate OwnsClaimName(name: string, namespace: string, owner: string) {
    var prefix := namespace + "-" + owner + "-";
    (if |prefix| > PREFIX_MAX then TrimRight(prefix[..PREFIX_MAX]) else prefix) <= name
  }

  /******* Ownership *******/

  /** A trimmed string is the longest prefix that does not end in a dash. */
  lemma TrimRightUnique(s: string, k: nat)
    requires k <= |s|
    requires k == 0 || s[k - 1] != '-'
    requires forall i | k <= i < |s| :: s[i] == '-'
    ensures TrimRight(s) == s[..k]
  {
    var r := TrimRight(s);
    assert r != [] ==> r[|r| - 1] == s[|r| - 1];
    assert k <= |r| <= k;
  }

  /** A name has to begin with the first k characters of the owner prefix p to be the owner's. */
  predicate ComparedAt(p: string, k: nat) {
    if |p| <= 54 then k == |p|
    else k <= 54 && (k == 0 || p[k - 1] != '-') && forall i | k <= i < 54 :: p[i] == '-'
  }

  /**
   Of all names exactly those are an owner's that begin with the owner prefix, cut to 54 characters and
   stripped of the dashes at the cut if it is longer.
   */
  lemma OwnsIff(name: string, namespace: string, owner: string)
    ensures var p := namespace + "-" + owner + "-";
            && (exists k: nat :: ComparedAt(p, k))
            && forall k: nat | ComparedAt(p, k) ::
                 OwnsClaimName(name, namespace, owner) <==> |name| >= k && name[..k] == p[..k]
  {
    var p := namespace + "-" + owner + "-";
    var cut := if |p| > 54 then TrimRight(p[..54]) else p;
    assert cut == p[..|cut|];
    assert ComparedAt(p, |cut|);
    forall k: nat | ComparedAt(p, k) ensures k == |cut| {
      if |p| > 54 { TrimRightUnique(p[..54], k); }
    }
    assert cut <= name <==> |name| >= |cut| && name[..|cut|] == cut;
  }

  /** The first k characters of a long name are what is left of the cut without its trailing dashes. */
  predicate KeptAt(name: string, k: nat) {
    && k <= 54 < |name|
    && (k == 0 || name[k - 1] != '-')
    && forall i | k <= i < 54 :: name[i] == '-'
  }

  /** A long name is cut, trimmed and marked with its hash; a short one stays as it is. */
  lemma TruncateMeaning(name: string, hash: string -> Digest, k: nat)
    ensures |name| <= 63 ==> Truncate(name, hash) == name
    ensures |name| > 63 && KeptAt(name, k) ==>
      Truncate(name, hash) == if k == 0 then hash(name) else name[..k] + "-" + hash(name)
    ensures |name| > 63 ==> exists j: nat :: KeptAt(name, j)
  {
    if |name| > LABEL_MAX {
      var cut := name[..PREFIX_MAX];
      assert KeptAt(name, |TrimRight(cut)|);
      if KeptAt(name, k) {
        TrimRightUnique(cut, k);
        assert cut[..k] == name[..k];
      }
    }
  }

  predicate EndsIn(s: string, t: string) {
    |t| <= |s| && s[|s| - |t|..] == t
  }

  /** The hashes tell two names apart where one of them is cut. */
  predicate Distinguished(x: string, y: string, hash: string -> Digest) {
    if |x| > LABEL_MAX && |y| > LABEL_MAX then hash(x) != hash(y)
    else if |x| > LABEL_MAX then !EndsIn(y, hash(x))
    else if |y| > LABEL_MAX then !EndsIn(x, hash(y))
    else true
  }

  lemma TruncationApart(x: string, y: string, hash: string -> Digest)
    requires x != y && Distinguished(x, y, hash)
    ensures Truncate(x, hash) != Truncate(y, hash)
  {
    EndsInHash(x, hash);
    EndsInHash(y, hash);
  }

  lemma EndsInHash(name: string, hash: string -> Digest)
    ensures |name| > LABEL_MAX ==> EndsIn(Truncate(name, hash), hash(name))
  {
  }

  /** The cut falls where the owner prefix is followed by nothing but dashes. */
  predicate CutAtPrefix(base: string, rest: string) {
    && |base| + 1 + |rest| > LABEL_MAX && |base| + 1 <= PREFIX_MAX
    && forall i | 0 <= i < PREFIX_MAX - (|base| + 1) :: rest[i] == '-'
  }

  lemma CutOwned(base: string, rest: string, hash: string -> Digest)
    requires |base| + 1 <= PREFIX_MAX && base != [] && |base + "-" + rest| > LABEL_MAX
    ensures base + "-" <= Truncate(base + "-" + rest, hash)
            <==> !(CutAtPrefix(base, rest) && base[|base| - 1] == '-')
  {
    var raw, p := base + "-" + rest, base + "-";
    var cut := raw[..PREFIX_MAX];
    var t := TrimRight(cut);
    var h := hash(raw);
    assert forall i | |p| <= i < PREFIX_MAX :: cut[i] == rest[i - |p|];
    assert forall i | 0 <= i < |p| :: cut[i] == p[i];
    if CutAtPrefix(base, rest) {
      if base[|base| - 1] == '-' {
        assert |t| < |base|;
        assert p[|t|] == '-' && p[|t| + 1] == '-';
        var name := Truncate(raw, hash);
        var at := if t == [] then 0 else |t| + 1;
        assert name[at] == h[0] && p[at] == '-';
      } else {
        TrimRightUnique(cut, |base|);
        assert cut[..|base|] == base;
      }
    } else {
      var j :| 0 <= j < PREFIX_MAX - |p| && rest[j] != '-';
      assert cut[|p| + j] != '-' && |t| > |p| + j;
      assert p <= t;
    }
  }

  /**
   Every name generated for an owner is recognised as the owner's, except when the name is cut right
   behind a prefix that ends in two dashes.
   */
  lemma OwnershipIff(namespace: string, owner: string, rest: string, hash: string -> Digest)
    ensures var base := namespace + "-" + owner;
            OwnsClaimName(Truncate(base + "-" + rest, hash), namespace, owner)
            <==> !(CutAtPrefix(base, rest) && base[|base| - 1] == '-')
  {
    var base := namespace + "-" + owner;
    var p := base + "-";
    var raw := p + rest;
    assert p == namespace + "-" + owner + "-";
    if |p| <= PREFIX_MAX {
      if |raw| > LABEL_MAX {
        CutOwned(base, rest, hash);
      } else {
        assert p <= raw;
      }
    } else {
      assert raw[..PREFIX_MAX] == p[..PREFIX_MAX];
      assert TrimRight(p[..PREFIX_MAX]) <= p <= raw;
    }
  }

  /** A name cut right behind an owner prefix of 54 characters that ends in two dashes is not recognised. */
  lemma OwnershipExample(hash: string -> Digest)
    ensures var namespace, container := seq(50, i => 'n'), seq(20, i => 'c');
            !OwnsClaimName(ClaimName(namespace, "a-", container, "", hash), namespace, "a-")
  {
    var namespace, container := seq(50, i => 'n'), seq(20, i => 'c');
    var base := namespace + "-" + "a-";
    assert RawName(namespace, "a-", container, "") == base + "-" + container;
    assert |base| == 53 && base[52] == '-';
    OwnershipIff(namespace, "a-", container, hash);
  }

  /** For an owner that does not end in a dash, as no DNS name does, every generated name is recognised. */
  lemma OwnershipComplete(namespace: string, owner: string, container: string, suffix: string, hash: string -> Digest)
    requires owner != [] && owner[|owner| - 1] != '-'
    ensures OwnsClaimName(ClaimName(namespace, owner, container, suffix, hash), namespace, owner)
  {
    var base := namespace + "-" + owner;
    var rest := if suffix != [] then container + "-" + suffix else container;
    assert RawName(namespace, owner, container, suffix) == base + "-" + rest;
    OwnershipIff(namespace, owner, rest, hash);
    assert base[|base| - 1] == owner[|owner| - 1];
  }

  /******* Labels *******/

  predicate IsAlnum(c: char) {
    'a' <= c <= 'z' || '0' <= c <= '9'
  }

  predicate LabelChars(s: string) {
    forall i | 0 <= i < |s| :: IsAlnum(s[i]) || s[i] == '-'
  }

  /** Nonempty, beginning and ending with a letter or digit. */
  predicate Bounded(s: string) {
    s != [] && IsAlnum(s[0]) && IsAlnum(s[|s| - 1])
  }

  /** An RFC 1123 label. */
  predicate IsLabel(s: string) {
    |s| <= LABEL_MAX && Bounded(s) && LabelChars(s)
  }

  /** The part of a name that survives truncation. */
  function Kept(raw: string): string {
    if |raw| <= LABEL_MAX then raw else TrimRight(raw[..PREFIX_MAX])
  }

  /** A name bounded by letters or digits becomes a label just when the kept part has label characters only. */
  lemma TruncatedIsLabelIff(raw: string, hash: string -> Digest)
    requires Bounded(raw)
    ensures IsLabel(Truncate(raw, hash)) <==> LabelChars(Kept(raw))
  {
    if |raw| > LABEL_MAX {
      var kept, h := TrimRight(raw[..PREFIX_MAX]), hash(raw);
      var r := kept + "-" + h;
      assert raw[..PREFIX_MAX][0] == raw[0];
      assert |kept| > 0;
      assert r == Truncate(raw, hash);
      assert r[0] == raw[0] && r[|r| - 1] == h[7];
      assert forall i | 0 <= i < |kept| :: r[i] == kept[i];
      assert forall i | |kept| < i < |r| :: r[i] == h[i - |kept| - 1];
    }
  }

  lemma NamesAreLabels(namespace: string, owner: string, container: string, suffix: string, hash: string -> Digest)
    requires Bounded(namespace) && LabelChars(namespace) && Bounded(owner) && LabelChars(owner)
    requires Bounded(container) && LabelChars(container)
    requires suffix == [] || (Bounded(suffix) && LabelChars(suffix))
    ensures IsLabel(ClaimName(namespace, owner, container, suffix, hash))
  {
    var base := namespace + "-" + owner + "-" + container;
    var raw := RawName(namespace, owner, container, suffix);
    assert LabelChars(base) && Bounded(base);
    assert LabelChars(raw) && Bounded(raw);
    TruncatedIsLabelIff(raw, hash);
  }

  /******* Collisions inside one pod *******/

  /** s is a "-"-separated tail of t. */
  ghost predicate Tail(s: string, t: string) {
    exists u: string :: t == u + "-" + s
  }

  ghost predicate Separates(s: string, t: string) {
    forall c: string, d: string :: c + "-" + s == d + "-" + t ==> c == d && s == t
  }

  lemma LongerHasTail(c: string, s: string, d: string, t: string)
    requires c + "-" + s == d + "-" + t && |s| < |t|
    ensures Tail(s, t)
  {
    var k := |t| - |s| - 1;
    var x := d + "-" + t;
    assert t == x[|d| + 1..];
    assert x[|c|] == '-';
    assert t == t[..k] + "-" + s;
  }

  /** Two suffixes keep the names of all containers apart just when neither is a tail of the other. */
  lemma SeparatesIff(s: string, t: string)
    ensures Separates(s, t) <==> s == t || (!Tail(s, t) && !Tail(t, s))
  {
    if Tail(s, t) && s != t {
      var u :| t == u + "-" + s;
      assert ("c-" + u) + "-" + s == "c" + "-" + t;
      assert |u| + 1 + |s| == |t|;
    }
    if Tail(t, s) && s != t {
      var u :| s == u + "-" + t;
      assert "c" + "-" + s == ("c-" + u) + "-" + t;
      assert |u| + 1 + |t| == |s|;
    }
    if s == t || (!Tail(s, t) && !Tail(t, s)) {
      forall c: string, d: string | c + "-" + s == d + "-" + t ensures c == d && s == t {
        if |s| < |t| { LongerHasTail(c, s, d, t); }
        if |t| < |s| { LongerHasTail(d, t, c, s); }
        assert c == (c + "-" + s)[..|c|] && d == (d + "-" + t)[..|d|];
        assert s == (c + "-" + s)[|c| + 1..] && t == (d + "-" + t)[|d| + 1..];
      }
    }
  }

  /** Untruncated names under owners of one length are equal only for one owner, container and suffix. */
  lemma RawNamesInjective(
    namespace: string, o: string, c: string, s: string, p: string, d: string, t: string)
    requires s != [] && t != [] && Separates(s, t) && |o| == |p|
    requires RawName(namespace, o, c, s) == RawName(namespace, p, d, t)
    ensures o == p && c == d && s == t
  {
    var x, y := namespace + "-" + o + "-", namespace + "-" + p + "-";
    var raw := x + (c + "-" + s);
    assert RawName(namespace, o, c, s) == raw;
    assert RawName(namespace, p, d, t) == y + (d + "-" + t);
    assert raw[|x|..] == c + "-" + s && raw[|x|..] == d + "-" + t;
    assert raw[|namespace| + 1..|x| - 1] == o && raw[|namespace| + 1..|x| - 1] == p;
  }
}
