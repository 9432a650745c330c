/** Signed collaboration objects: profiles and typed trust edges. Signatures are
    carried as opaque data; every object reaching this code is already verified. */
module Collab {
  import opened Wrappers

  /** A 32-byte public key read big-endian, so that `<` is the byte order. */
  type Key = nat

  datatype TrustKind = Vouch | Follow | Review

  datatype TrustEdge =
    TrustEdge(from: Key, to: Key, kind: TrustKind, petname: Option<string>, seqNo: nat, sig: seq<nat>)

  datatype Profile = Profile(
    key: Key, displayName: string, bio: string, endpoints: seq<string>, dnsAliases: seq<string>, seqNo: nat,
    sig: seq<nat>)

  datatype CollabObject = ProfileObject(profile: Profile) | EdgeObject(edge: TrustEdge)

  /** The trust edges of a corpus, in order. */
  function EdgesOf(corpus: seq<CollabObject>): seq<TrustEdge> {
    if corpus == [] then []
    else
      var o := corpus[|corpus| - 1];
      EdgesOf(corpus[..|corpus| - 1]) + if o.EdgeObject? then [o.edge] else []
  }

  /** The profiles of a corpus, in order. */
  function ProfilesOf(corpus: seq<CollabObject>): seq<Profile> {
    if corpus == [] then []
    else
      var o := corpus[|corpus| - 1];
      ProfilesOf(corpus[..|corpus| - 1]) + if o.ProfileObject? then [o.profile] else []
  }

  /** The lowercase hexadecimal form of a key: two digits a byte, 64 in all. */
  function KeyHex(key: Key): (s: string) {
    HexDigits(key, 64)
  }

  function HexDigits(n: nat, digits: nat): (s: string)
    ensures |s| == digits
  {
    if digits == 0 then "" else HexDigits(n / 16, digits - 1) + ["0123456789abcdef"[n % 16]]
  }

  /** Substring test. */
  predicate Contains(text: string, term: string) {
    exists i :: 0 <= i <= |text| - |term| && term <= text[i..]
  }

  /** The one term test used by both the relay and the client. */
  predicate ProfileMatches(p: Profile, term: string) {
    || Contains(p.displayName, term)
    || Contains(p.bio, term)
    || (exists i :: 0 <= i < |p.dnsAliases| && Contains(p.dnsAliases[i], term))
    || Contains(KeyHex(p.key), term)
  }

  // ----------------------------------------------------------------------
  // What these mean
  // ----------------------------------------------------------------------

  /** The edges and profiles of a corpus are all there is of each kind in it. */
  lemma {:induction false} PartsOf(corpus: seq<CollabObject>)
    ensures forall e :: e in EdgesOf(corpus) <==> EdgeObject(e) in corpus
    ensures forall p :: p in ProfilesOf(corpus) <==> ProfileObject(p) in corpus
  {
    if corpus != [] {
      var front, o := corpus[..|corpus| - 1], corpus[|corpus| - 1];
      PartsOf(front);
      assert corpus == front + [o];
    }
  }

  lemma Appended(c: seq<CollabObject>, o: CollabObject)
    ensures EdgesOf(c + [o]) == EdgesOf(c) + if o.EdgeObject? then [o.edge] else []
    ensures ProfilesOf(c + [o]) == ProfilesOf(c) + if o.ProfileObject? then [o.profile] else []
  {
    assert (c + [o])[..|c + [o]| - 1] == c;
  }

  /** Both parts keep the order of the corpus. */
  lemma {:induction false} PartsConcat(a: seq<CollabObject>, b: seq<CollabObject>)
    ensures EdgesOf(a + b) == EdgesOf(a) + EdgesOf(b) && ProfilesOf(a + b) == ProfilesOf(a) + ProfilesOf(b)
    decreases |b|
  {
    if b == [] {
      assert a + b == a;
    } else {
      hide EdgesOf, ProfilesOf;
      var front, z := b[..|b| - 1], b[|b| - 1];
      PartsConcat(a, front);
      assert b == front + [z] && a + b == (a + front) + [z];
      Appended(front, z);
      Appended(a + front, z);
    }
  }

  /** The text is the term with something before and something after. */
  ghost predicate Occurs(text: string, term: string) {
    exists before: string, after: string :: text == before + term + after
  }

  lemma ContainsMeans(text: string, term: string)
    ensures Contains(text, term) <==> Occurs(text, term)
  {
    if i :| 0 <= i <= |text| - |term| && term <= text[i..] {
      assert text == text[..i] + term + text[i + |term|..];
    }
    if before: string, after: string :| text == before + term + after {
      var i := |before|;
      assert text[i..] == term + after;
    }
  }

  /** A term finds a profile by display name, biography, any alias, or key digits. */
  lemma MatchMeans(p: Profile, term: string)
    ensures ProfileMatches(p, term) <==>
            || Occurs(p.displayName, term)
            || Occurs(p.bio, term)
            || (exists alias :: alias in p.dnsAliases && Occurs(alias, term))
            || Occurs(KeyHex(p.key), term)
  {
    hide Contains, Occurs, KeyHex;
    ContainsMeans(p.displayName, term);
    ContainsMeans(p.bio, term);
    ContainsMeans(KeyHex(p.key), term);
    forall i | 0 <= i < |p.dnsAliases|
      ensures p.dnsAliases[i] in p.dnsAliases && (Contains(p.dnsAliases[i], term) <==> Occurs(p.dnsAliases[i], term))
    {
      ContainsMeans(p.dnsAliases[i], term);
    }
  }

  /** The value of one hexadecimal digit. */
  function DigitValue(c: char): int {
    if '0' <= c <= '9' then c as int - '0' as int else if 'a' <= c <= 'f' then c as int - 'a' as int + 10 else -1
  }

  function HexValue(s: string): int {
    if s == [] then 0 else HexValue(s[..|s| - 1]) * 16 + DigitValue(s[|s| - 1])
  }

  function Power16(n: nat): nat {
    if n == 0 then 1 else 16 * Power16(n - 1)
  }

  /** Reading the digits back gives the key, for every key of so many digits. */
  lemma {:induction false} HexReadsBack(n: nat, digits: nat)
    requires n < Power16(digits)
    ensures HexValue(HexDigits(n, digits)) == n
    ensures forall c :: c in HexDigits(n, digits) ==> 0 <= DigitValue(c) < 16
    decreases digits
  {
    if digits > 0 {
      HexReadsBack(n / 16, digits - 1);
      var s, c := HexDigits(n / 16, digits - 1), "0123456789abcdef"[n % 16];
      assert HexDigits(n, digits) == s + [c] && (s + [c])[..digits - 1] == s;
      DigitReadsBack(n % 16);
    }
  }

  lemma DigitReadsBack(d: nat)
    requires d < 16
    ensures DigitValue("0123456789abcdef"[d]) == d
  {
    assert d == 0 || d == 1 || d == 2 || d == 3 || d == 4 || d == 5 || d == 6 || d == 7 || d == 8 || d == 9 || d >= 10;
    assert d < 10 || d == 10 || d == 11 || d == 12 || d == 13 || d == 14 || d == 15;
  }

  lemma KeyHexReadsBack(key: Key)
    requires key < Power16(64)
    ensures |KeyHex(key)| == 64 && HexValue(KeyHex(key)) == key
  {
    hide Power16, HexValue;
    HexReadsBack(key, 64);
  }
}
