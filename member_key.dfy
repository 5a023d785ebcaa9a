/**
 * Member keys `a.b.c.d:gossipPort:dataPort` and the six integers the codecs
 * write them as: `parseInt` of each address octet and of each port, read back
 * by joining the decoded numbers with dots and colons.
 */
module MemberKey {
  import opened Js
  import opened Text

  /** `a + '.' + b + '.' + c + '.' + d`. */
  function DottedQuad(a: string, b: string, c: string, d: string): string
  {
    a + "." + b + "." + c + "." + d
  }

  /** Four canonical decimal octets joined by dots. */
  predicate CanonicalIp(ip: string)
  {
    var o := Split(ip, ".");
    |o| == 4 && Canonical(o[0]) && Canonical(o[1]) && Canonical(o[2]) && Canonical(o[3])
  }

  /** A member key `a.b.c.d:gossipPort:dataPort` made of canonical decimals. */
  predicate CanonicalKey(key: string)
  {
    var keys := Split(key, ":");
    |keys| == 3 && CanonicalIp(keys[0]) && Canonical(keys[1]) && Canonical(keys[2])
  }

  /**
   * The text `encode` hands to `parseInt` for the `j`-th integer of a member
   * key: the four pieces of the address, then the two ports.
   */
  function KeyPiece(key: string, j: nat): Value
  {
    var keys := Split(key, ":");
    if j < 4 then StrAt(Split(keys[0], "."), j) else StrAt(keys, j - 3)
  }

  /** The six integers a member key is written as: four octets and two ports. */
  function MemberFields(key: string): (fs: seq<Value>)
    ensures |fs| == 6
  {
    seq(6, j requires 0 <= j < 6 => ParseIntValue(KeyPiece(key, j)))
  }

  /** The four octets of a dotted address, as `parseInt` gives them. */
  function Octets(ip: string): (os: seq<Value>)
    ensures |os| == 4
  {
    seq(4, j requires 0 <= j < 4 => ParseIntValue(StrAt(Split(ip, "."), j)))
  }

  /** Four pieces joined by dots form a dotted quad. */
  lemma JoinQuad(o: seq<string>)
    requires |o| == 4
    ensures JoinWith(o, ".") == DottedQuad(o[0], o[1], o[2], o[3])
  {
    var sep := ".";
    assert JoinWith(o[3..], sep) == o[3];
    assert JoinWith(o[2..], sep) == o[2] + sep + o[3] by {
      assert o[2..][1..] == o[3..];
    }
    assert JoinWith(o[1..], sep) == o[1] + sep + (o[2] + sep + o[3]) by {
      assert o[1..][1..] == o[2..];
    }
  }

  /** Three pieces joined by colons. */
  lemma JoinTriple(k: seq<string>)
    requires |k| == 3
    ensures JoinWith(k, ":") == k[0] + ":" + k[1] + ":" + k[2]
  {
    var sep := ":";
    assert JoinWith(k[2..], sep) == k[2];
    assert JoinWith(k[1..], sep) == k[1] + sep + k[2] by {
      assert k[1..][1..] == k[2..];
    }
  }

  /** A canonical dotted quad is rebuilt from its own pieces. */
  lemma IpShape(ip: string)
    requires |Split(ip, ".")| == 4
    ensures var o := Split(ip, "."); DottedQuad(o[0], o[1], o[2], o[3]) == ip
  {
    JoinSplit(ip, ".");
    JoinQuad(Split(ip, "."));
  }

  /** The text of the `j`-th integer of a member key. */
  function Piece(key: string, j: nat): string
    requires CanonicalKey(key) && j < 6
  {
    var keys := Split(key, ":");
    if j < 4 then Split(keys[0], ".")[j] else keys[j - 3]
  }

  /** A canonical key is its six pieces joined by dots and colons. */
  lemma KeyShape(key: string)
    requires CanonicalKey(key)
    ensures key == DottedQuad(Piece(key, 0), Piece(key, 1), Piece(key, 2), Piece(key, 3)) + ":" + Piece(key, 4) + ":" + Piece(key, 5)
  {
    var keys := Split(key, ":");
    IpShape(keys[0]);
    JoinSplit(key, ":");
    JoinTriple(keys);
  }

  /** Each piece of a canonical key is written as its integer and read back as the same text. */
  lemma PieceRoundTrip(key: string, j: nat)
    requires CanonicalKey(key) && j < 6
    ensures MemberFields(key)[j] == Int(DigitsValue(Piece(key, j)))
    ensures Show(MemberFields(key)[j]) == Piece(key, j)
  {
    var p := Piece(key, j);
    assert KeyPiece(key, j) == Str(p);
    assert Canonical(p);
    CanonicalRoundTrip(p);
  }

  /** The address fields of a canonical address are its four octets as integers. */
  lemma OctetsRoundTrip(ip: string)
    requires CanonicalIp(ip)
    ensures var os := Octets(ip);
      DottedQuad(Show(os[0]), Show(os[1]), Show(os[2]), Show(os[3])) == ip
  {
    var o := Split(ip, ".");
    var os := Octets(ip);
    forall j | 0 <= j < 4
      ensures Show(os[j]) == o[j]
    {
      assert os[j] == ParseIntValue(Str(o[j]));
      CanonicalRoundTrip(o[j]);
    }
    IpShape(ip);
  }

  /**
   * `member[0] + '.' + ... + ':' + member[5]`: the key text the decoders
   * rebuild from six decoded values.
   */
  function KeyText(a: Value, b: Value, c: Value, d: Value, gossipPort: Value, dataPort: Value): string
  {
    DottedQuad(Show(a), Show(b), Show(c), Show(d)) + ":" + Show(gossipPort) + ":" + Show(dataPort)
  }

  /** A canonical key written as six integers is read back as the same key. */
  lemma KeyRoundTrip(key: string)
    requires CanonicalKey(key)
    ensures forall j :: 0 <= j < 6 ==> MemberFields(key)[j].Int?
    ensures var fs := MemberFields(key); KeyText(fs[0], fs[1], fs[2], fs[3], fs[4], fs[5]) == key
  {
    var fs := MemberFields(key);
    forall j | 0 <= j < 6
      ensures fs[j].Int? && Show(fs[j]) == Piece(key, j)
    {
      PieceRoundTrip(key, j);
    }
    KeyShape(key);
  }
}
