/**
 The stream functions of agent/command-ssh.c, the loops that write and receive
 keys, and the repair of received RSA keys.
 */
module SshStreams {
  import opened Octets
  import opened Numbers
  import opened SshWire
  import opened SshBlobs

  /** An estream: octets and a position. */
  class Stream {
    var data: seq<u8>
    var pos: nat

    ghost predicate Valid()
      reads this
    {
      pos <= |data|
    }

    ghost function Rest(): seq<u8>
      requires Valid()
      reads this
    {
      data[pos..]
    }

    constructor (d: seq<u8>)
      ensures Valid() && data == d && pos == 0 && Rest() == d
    {
      data, pos := d, 0;
    }

    /** stream_read_uint32. */
    method ReadUint32() returns (err: Option<Error>, n: nat)
      requires Valid()
      modifies this`pos
      ensures Valid()
      ensures ReadU32(old(Rest())) == if err.Some? then Bad(err.value) else Good(n, Rest())
    {
      if |data| - pos < 4 {
        pos := |data|;
        return Some(Eof), 0;
      }
      n := data[pos] as nat * 0x100_0000 + data[pos + 1] as nat * 0x1_0000 + data[pos + 2] as nat * 256 + data[pos + 3] as nat;
      assert data[pos..][4..] == data[pos + 4..];
      pos := pos + 4;
      err := None;
    }

    /** stream_read_data. */
    method ReadData(n: nat) returns (err: Option<Error>, d: seq<u8>)
      requires Valid()
      modifies this`pos
      ensures Valid()
      ensures err == if |old(Rest())| < n then Some(Eof) else None
      ensures err.None? ==> d == old(Rest())[..n] && Rest() == old(Rest())[n..]
    {
      if |data| - pos < n {
        pos := |data|;
        return Some(Eof), [];
      }
      d := data[pos..pos + n];
      assert data[pos..][..n] == d && data[pos..][n..] == data[pos + n..];
      pos := pos + n;
      err := None;
    }

    /** stream_read_string. */
    method ReadStr() returns (err: Option<Error>, d: seq<u8>)
      requires Valid()
      modifies this`pos
      ensures Valid()
      ensures ReadString(old(Rest())) == if err.Some? then Bad(err.value) else Good(d, Rest())
    {
      hide ReadU32;
      d := [];
      var n;
      err, n := ReadUint32();
      if err.Some? {
        return;
      }
      err, d := ReadData(n);
    }

    /** stream_read_mpi. */
    method ReadMpint() returns (err: Option<Error>, n: int)
      requires Valid()
      modifies this`pos
      ensures Valid()
      ensures ReadMpi(old(Rest())) == if err.Some? then Bad(err.value) else Good(n, Rest())
    {
      hide ReadString, StdValue;
      n := 0;
      var d;
      err, d := ReadStr();
      if err.Some? {
        return;
      }
      if |d| > MAX_MPI {
        return Some(TooLarge), 0;
      }
      n := StdValue(d);
    }

    /** stream_read_blob. */
    method ReadBlob() returns (err: Option<Error>, q: seq<u8>)
      requires Valid()
      modifies this`pos
      ensures Valid()
      ensures ReadPoint(old(Rest())) == if err.Some? then Bad(err.value) else Good(q, Rest())
    {
      hide ReadU32;
      q := [];
      var n, d;
      err, n := ReadUint32();
      if err.Some? {
        return;
      }
      if n > 4096 / 8 + 8 {
        return Some(TooLarge), q;
      }
      err, d := ReadData(n);
      if err.Some? {
        return;
      }
      q := [0x40] + d;
    }

    /** stream_write_string at the end of a memory stream. */
    method WriteStr(d: seq<u8>)
      modifies this`data
      ensures data == old(data) + StringForm(d)
    {
      var n := |d|;
      data := data + [n / 0x100_0000 % 256, n / 0x1_0000 % 256, n / 256 % 256, n % 256];
      data := data + d;
    }
  }

  /** The two streams of a key: public parameters come from a certificate, if there is one. */
  ghost function SourceOf(stream: Stream, cert: Stream?): Source
    requires stream.Valid() && (cert != null ==> cert.Valid())
    reads stream, cert
  {
    Source(if cert == null then None else Some(cert.Rest()), stream.Rest())
  }

  function NonNull(s: Stream?): set<Stream> {
    if s == null then {} else {s}
  }

  /** The numbers read so far, and what is left to read. */
  ghost predicate Receiving(all: Receipt<seq<int>>, ns: seq<int>, src: Source, letters: string, public: string) {
    var more := ReadLetters(src, letters, public);
    all == if more.Refused? then Refused(more.error) else Got(ns + more.value, more.source)
  }

  lemma ReceiveStarts(src: Source, letters: string, public: string)
    ensures Receiving(ReadLetters(src, letters, public), [], src, letters, public)
  {
    hide ReadLetters;
    var all := ReadLetters(src, letters, public);
    assert all.Got? ==> [] + all.value == all.value;
  }

  lemma ReceiveStep(all: Receipt<seq<int>>, ns: seq<int>, src: Source, letters: string, public: string)
    requires letters != [] && Receiving(all, ns, src, letters, public)
    ensures var m := ReadNumber(src, letters[0] in public);
            if m.Refused? then all == Refused(m.error) else Receiving(all, ns + [m.value], m.source, letters[1..], public)
  {
    hide ReadNumber;
    var m := ReadNumber(src, letters[0] in public);
    if m.Got? {
      var more := ReadLetters(m.source, letters[1..], public);
      assert more.Got? ==> ns + ([m.value] + more.value) == ns + [m.value] + more.value;
    }
  }

  lemma ReceiveEnds(all: Receipt<seq<int>>, ns: seq<int>, src: Source, public: string)
    requires Receiving(all, ns, src, [], public)
    ensures all == Got(ns, src)
  {
    assert ns + [] == ns;
  }

  /** One number, from the certificate or from the stream. */
  method ReceiveNumber(stream: Stream, cert: Stream?, public: bool) returns (err: Option<Error>, n: int)
    requires stream.Valid() && stream != cert && (cert != null ==> cert.Valid())
    modifies stream`pos, NonNull(cert)`pos
    ensures stream.Valid() && (cert != null ==> cert.Valid())
    ensures ReadNumber(old(SourceOf(stream, cert)), public) == if err.Some? then Refused(err.value) else Got(n, SourceOf(stream, cert))
  {
    hide ReadMpi;
    if cert != null && public {
      err, n := cert.ReadMpint();
    } else {
      err, n := stream.ReadMpint();
    }
  }

  /** ssh_receive_mpint_list. */
  method ReceiveMpis(stream: Stream, cert: Stream?, letters: string, public: string) returns (err: Option<Error>, ns: seq<int>)
    requires stream.Valid() && stream != cert && (cert != null ==> cert.Valid())
    modifies stream`pos, NonNull(cert)`pos
    ensures stream.Valid() && (cert != null ==> cert.Valid())
    ensures ReadLetters(old(SourceOf(stream, cert)), letters, public) ==
            if err.Some? then Refused(err.value) else Got(ns, SourceOf(stream, cert))
  {
    hide ReadLetters, ReadNumber, Receiving;
    ghost var all := ReadLetters(SourceOf(stream, cert), letters, public);
    ns := [];
    var i := 0;
    ReceiveStarts(SourceOf(stream, cert), letters, public);
    assert letters[0..] == letters;
    while i < |letters|
      invariant stream.Valid() && (cert != null ==> cert.Valid()) && i <= |letters|
      invariant Receiving(all, ns, SourceOf(stream, cert), letters[i..], public)
    {
      assert letters[i..][1..] == letters[i + 1..];
      ReceiveStep(all, ns, SourceOf(stream, cert), letters[i..], public);
      var n;
      err, n := ReceiveNumber(stream, cert, letters[i] in public);
      if err.Some? {
        return;
      }
      ns := ns + [n];
      i := i + 1;
    }
    assert letters[i..] == [];
    ReceiveEnds(all, ns, SourceOf(stream, cert), public);
    err := None;
  }

  lemma {:induction false} ParamsAppend(k: PubKey, letters: string, c: char)
    requires forall i :: 0 <= i < |letters| ==> letters[i] in k.params
    requires c in k.params
    ensures ParamsForm(k, letters + [c]) == ParamsForm(k, letters) + ParamForm(c, k.params[c])
  {
    if letters == [] {
      assert letters + [c] == [c];
      OneParam(k, c);
    } else {
      assert (letters + [c])[1..] == letters[1..] + [c];
      ParamsAppend(k, letters[1..], c);
    }
  }

  /** The loop of ssh_key_to_blob over the letters of the parameters. */
  method WriteParams(stream: Stream, k: PubKey, letters: string)
    requires forall i :: 0 <= i < |letters| ==> letters[i] in k.params
    modifies stream`data
    ensures stream.data == old(stream.data) + ParamsForm(k, letters)
  {
    hide StdForm, StringForm, ParamsForm;
    ghost var before := stream.data;
    NoParams(k);
    var i := 0;
    assert letters[..0] == [];
    while i < |letters|
      invariant i <= |letters| && stream.data == before + ParamsForm(k, letters[..i])
    {
      var c := letters[i];
      assert letters[..i + 1] == letters[..i] + [c];
      ParamsAppend(k, letters[..i], c);
      match k.params[c] {
        case Num(n) =>
          stream.WriteStr(StdForm(n));
        case Raw(data) =>
          var d := data;
          if c == 'q' && |d| % 2 == 1 && d[0] == 0x40 {
            d := d[1..];
          }
          stream.WriteStr(d);
      }
      i := i + 1;
    }
    assert letters[..i] == letters;
  }

  /** ssh_identifier_from_curve_name. */
  method CurveType(curve: string) returns (i: nat)
    ensures i == CurveIndex(curve)
  {
    i := 0;
    while i < |KEY_TYPES| && !Names(KEY_TYPES[i], curve)
      invariant i <= |KEY_TYPES| && CurveIndex(curve) == CurveIndex(curve, i)
    {
      i := i + 1;
    }
  }

  /** ssh_key_type_lookup by name. */
  method LookupType(identifier: string) returns (i: nat)
    ensures i == TypeIndex(identifier)
  {
    i := 0;
    while i < |KEY_TYPES| && KEY_TYPES[i].identifier != identifier
      invariant i <= |KEY_TYPES| && TypeIndex(identifier) == TypeIndex(identifier, i)
    {
      i := i + 1;
    }
  }

  /** ssh_key_to_blob. */
  method KeyToBlob(k: PubKey, t: Spec, secret: bool) returns (r: Result<seq<u8>>)
    ensures r == ToBlob(k, t, secret)
  {
    hide StringForm, ParamsForm, CurveIndex, Ascii;
    var letters := if secret then t.secret else t.public;
    var stream := new Stream([]);
    if t.ecdsa {
      if k.curve.None? {
        return Err(InvCurve);
      }
      var i := CurveType(k.curve.value);
      if i == |KEY_TYPES| {
        return Err(UnknownCurve);
      }
      stream.WriteStr(Ascii(KEY_TYPES[i].identifier));
      stream.WriteStr(Ascii(KEY_TYPES[i].curve.value));
      assert stream.data == StringForm(Ascii(KEY_TYPES[i].identifier)) + StringForm(Ascii(KEY_TYPES[i].curve.value));
    } else {
      stream.WriteStr(Ascii(t.identifier));
      assert stream.data == StringForm(Ascii(t.identifier));
    }
    if !HasParams(k, letters, t.eddsa) {
      return Err(InvSexp);
    }
    WriteParams(stream, k, letters);
    return Ok(stream.data);
  }

  /** The part of ssh_receive_key that opens a certificate. */
  method ReceiveCert(stream: Stream, t: Spec, id: string) returns (err: Option<Error>, cert: Stream?)
    requires stream.Valid()
    modifies stream`pos
    ensures stream.Valid() && (cert != null ==> fresh(cert) && cert.Valid())
    ensures OpenCert(t, id, old(stream.Rest())) == if err.Some? then Refused(err.value) else Got((), SourceOf(stream, cert))
  {
    hide ReadString, Text;
    cert := null;
    if !t.cert {
      return None, null;
    }
    var data, kind, nonce;
    err, data := stream.ReadStr();
    if err.Some? {
      return;
    }
    cert := new Stream(data);
    err, kind := cert.ReadStr();
    if err.Some? {
      return;
    }
    if Text(kind) != id {
      return Some(InvCertObj), cert;
    }
    err, nonce := cert.ReadStr();
  }

  /** The private part of an EdDSA key. */
  method ReceiveSecret(stream: Stream) returns (err: Option<Error>, d: seq<u8>)
    requires stream.Valid()
    modifies stream`pos
    ensures stream.Valid()
    ensures ReadSecret(old(stream.Rest())) == if err.Some? then Bad(err.value) else Good(d, stream.Rest())
  {
    hide ReadU32;
    d := [];
    var len;
    err, len := stream.ReadUint32();
    if err.Some? {
      return;
    }
    if len != 32 && len != 64 {
      return Some(BadSecKey), d;
    }
    ghost var r := stream.Rest();
    err, d := stream.ReadData(32);
    if err.Some? {
      return;
    }
    if len == 64 {
      var point;
      err, point := stream.ReadData(32);
      assert |r| >= 64 ==> r[32..][32..] == r[64..];
    }
  }

  /** The part of ssh_receive_key for an EdDSA key. */
  method ReceivePair(stream: Stream, cert: Stream?, i: nat, secret: bool) returns (err: Option<Error>, r: Received)
    requires stream.Valid() && stream != cert && (cert != null ==> cert.Valid())
    modifies stream`pos, NonNull(cert)`pos
    ensures stream.Valid() && (cert != null ==> cert.Valid())
    ensures ReadPair(i, old(SourceOf(stream, cert)), secret) == if err.Some? then Bad(err.value) else Good(r, stream.Rest())
  {
    hide ReadPoint, ReadSecret;
    r := Point(i, [], None);
    var q;
    if cert != null {
      err, q := cert.ReadBlob();
    } else {
      err, q := stream.ReadBlob();
    }
    if err.Some? {
      return;
    }
    r := Point(i, q, None);
    if secret {
      var d;
      err, d := ReceiveSecret(stream);
      r := Point(i, q, Some(d));
    }
  }

  /** The part of ssh_receive_key that reads the parameters. */
  method ReceiveParams(stream: Stream, cert: Stream?, i: nat, secret: bool) returns (err: Option<Error>, r: Received)
    requires i < |KEY_TYPES| && stream.Valid() && stream != cert && (cert != null ==> cert.Valid())
    modifies stream`pos, NonNull(cert)`pos
    ensures stream.Valid() && (cert != null ==> cert.Valid())
    ensures ReadParams(i, old(SourceOf(stream, cert)), secret) == if err.Some? then Bad(err.value) else Good(r, stream.Rest())
  {
    hide ReadString, ReadPair, ReadLetters, CurveIndex, Text, KEY_TYPES;
    var t := KEY_TYPES[i];
    if t.eddsa {
      err, r := ReceivePair(stream, cert, i, secret);
      return;
    }
    r := Numbers(i, None, []);
    var curve: Option<string> := None;
    if t.ecdsa {
      var name;
      if cert != null {
        err, name := cert.ReadStr();
      } else {
        err, name := stream.ReadStr();
      }
      if err.Some? {
        return;
      }
      var j := CurveType(Text(name));
      if j == |KEY_TYPES| {
        return Some(UnknownCurve), r;
      }
      curve := KEY_TYPES[j].curve;
    }
    var ns;
    err, ns := ReceiveMpis(stream, cert, if secret then t.secret else t.public, t.public);
    r := Numbers(i, curve, ns);
  }

  /** ssh_receive_key. */
  method ReceiveKey(stream: Stream, secret: bool, withComment: bool) returns (err: Option<Error>, r: Received, comment: Option<string>)
    requires stream.Valid()
    modifies stream`pos
    ensures stream.Valid()
    ensures var key := FromBlob(old(stream.Rest()), secret);
            if key.Bad? then err == Some(key.error)
            else if !withComment then err.None? && r == key.value && comment.None? && stream.Rest() == key.rest
            else match ReadString(key.rest)
                 case Bad(e) => err == Some(e)
                 case Good(c, rest) => err.None? && r == key.value && comment == Some(Text(c)) && stream.Rest() == rest
  {
    hide ReadString, ReadParams, OpenCert, TypeIndex, Text, KEY_TYPES;
    r, comment := Numbers(0, None, []), None;
    var id;
    err, id := stream.ReadStr();
    if err.Some? {
      return;
    }
    var i := LookupType(Text(id));
    if i == |KEY_TYPES| {
      return Some(NotFound), r, comment;
    }
    var cert;
    err, cert := ReceiveCert(stream, KEY_TYPES[i], Text(id));
    if err.Some? {
      return;
    }
    err, r := ReceiveParams(stream, cert, i, secret);
    if err.Some? || !withComment {
      return;
    }
    var c;
    err, c := stream.ReadStr();
    if err.None? {
      comment := Some(Text(c));
    }
  }

  lemma NoParams(k: PubKey)
    ensures ParamsForm(k, []) == []
  {
  }

  // ----- received RSA keys

  /** gcry_mpi_invm: some inverse, whenever there is one. */
  ghost predicate Inverts(invm: (nat, nat) -> nat) {
    forall a: nat, m: nat :: m > 0 && (exists x: nat :: (a * x) % m == 1 % m) ==> (a * invm(a, m)) % m == 1 % m
  }

  /**
   ssh_key_modifier_rsa on parameters in wire order n, e, d, u, p, q: OpenSSH
   sends u as the inverse of q modulo p; the agent wants p to be the smaller
   prime and u to be the inverse of p modulo q.
   */
  method ModifyRsa(mpis: array<nat>, invm: (nat, nat) -> nat)
    requires mpis.Length == 6 && Inverts(invm)
    modifies mpis
    ensures mpis[0] == old(mpis[0]) && mpis[1] == old(mpis[1]) && mpis[2] == old(mpis[2])
    ensures multiset{mpis[4], mpis[5]} == multiset{old(mpis[4]), old(mpis[5])}
    ensures mpis[4] <= mpis[5] && mpis[4] * mpis[5] == old(mpis[4] * mpis[5])
    ensures old(mpis[4]) > 0 && old(mpis[5]) > 0 && (old(mpis[3]) * old(mpis[5])) % old(mpis[4]) == 1 % old(mpis[4])
            ==> (mpis[4] * mpis[3]) % mpis[5] == 1 % mpis[5]
  {
    var p, q := mpis[4], mpis[5];
    if p > q {
      mpis[4], mpis[5] := q, p;
      assert mpis[3] * q == q * mpis[3];
    } else {
      ghost var u := mpis[3];
      mpis[3] := invm(p, q);
      if p > 0 && (u * q) % p == 1 % p {
        InverseExists(u, q, p);
      }
    }
  }

  /** If u inverts q modulo p, then p has an inverse modulo q. */
  lemma InverseExists(u: nat, q: nat, p: nat)
    requires p > 0 && q > 0 && (u * q) % p == 1 % p
    ensures exists x: nat :: (p * x) % q == 1 % q
  {
    if p == 1 {
      assert (p * 1) % q == 1 % q;
    } else if q == 1 {
      assert (p * 0) % q == 1 % q;
    } else {
      var n := u * q;
      var k := n / p;
      assert n == p * k + 1 by { DivMod(n, p); }
      var x := LargeInverse(u, q, p, k);
      assert (p * x) % q == 1 % q;
    }
  }

  lemma DivMod(n: nat, p: nat)
    requires p > 0
    ensures n == p * (n / p) + n % p
  {
  }

  lemma LargeInverse(u: nat, q: nat, p: nat, k: nat) returns (x: nat)
    requires q > 1 && u * q == p * k + 1
    ensures (p * x) % q == 1
  {
    var a, b := k / q, k % q;
    DivMod(k, q);
    x := q - b;
    InverseTerms(p, q, u, k, a, b);
    RemainderOne(p * x, q, p - u + p * a);
  }

  lemma InverseTerms(p: int, q: int, u: int, k: int, a: int, b: int)
    requires u * q == p * k + 1 && k == q * a + b
    ensures p * (q - b) == q * (p - u + p * a) + 1
  {
    assert p * k == p * (q * a) + p * b;
    assert p * (q * a) == q * (p * a);
    assert p * (q - b) == p * q - p * b;
    assert q * (p - u + p * a) == q * p - q * u + q * (p * a);
  }

  lemma RemainderOne(n: nat, q: nat, m: int)
    requires q > 1 && n == q * m + 1
    ensures n % q == 1
  {
    DivMod(n, q);
    var d := m - n / q;
    assert q * d == q * m - q * (n / q);
    if d != 0 {
      Far(q, d);
    }
  }

  lemma {:induction false} Far(q: int, d: int)
    requires q > 0 && d != 0
    ensures if d > 0 then q * d >= q else q * d + q <= 0
    decreases if d > 0 then d else -d
  {
    if d > 1 {
      Far(q, d - 1);
      assert q * d == q * (d - 1) + q;
    } else if d < -1 {
      Far(q, d + 1);
      assert q * d == q * (d + 1) - q;
    }
  }

  /** Some inverse, or 0. */
  ghost function Inverse(a: nat, m: nat): nat {
    if m > 0 && exists x: nat :: (a * x) % m == 1 % m then
      var x: nat :| (a * x) % m == 1 % m; x
    else 0
  }

  /** What is asked of gcry_mpi_invm can be met. */
  lemma InvertsExists()
    ensures Inverts((a, m) => Inverse(a, m))
  {
  }

  datatype Attached = Attached(letter: char, value: nat)

  /**
   The loop of sexp_key_construct for a secret key: each letter of the
   S-expression order gets the number that was received under that letter.
   */
  method AttachParams(sexp: string, wire: string, mpis: seq<nat>) returns (r: seq<Attached>)
    requires |sexp| == |wire| == |mpis|
    requires forall i :: 0 <= i < |sexp| ==> sexp[i] in wire
    ensures |r| == |sexp|
    ensures forall i :: 0 <= i < |r| ==> r[i].letter == sexp[i]
    ensures forall i, j :: 0 <= i < |r| && 0 <= j < |wire| && wire[j] == sexp[i] && (forall k :: 0 <= k < j ==> wire[k] != sexp[i])
              ==> r[i].value == mpis[j]
  {
    r := [];
    var i := 0;
    while i < |sexp|
      invariant i == |r| <= |sexp|
      invariant forall k :: 0 <= k < |r| ==> r[k].letter == sexp[k]
      invariant forall n, j :: 0 <= n < |r| && 0 <= j < |wire| && wire[j] == sexp[n] && (forall k :: 0 <= k < j ==> wire[k] != sexp[n])
                  ==> r[n].value == mpis[j]
    {
      var j := 0;
      while j < |wire| && wire[j] != sexp[i]
        invariant j <= |wire| && forall k :: 0 <= k < j ==> wire[k] != sexp[i]
      {
        j := j + 1;
      }
      assert j < |wire| by {
        assert sexp[i] in wire;
      }
      r := r + [Attached(sexp[i], mpis[j])];
      i := i + 1;
    }
  }

  /** A received RSA secret key, repaired and in the order of the S-expression n, e, d, p, q, u. */
  method ReceiveRsa(wire: seq<nat>, invm: (nat, nat) -> nat) returns (r: seq<Attached>)
    requires |wire| == 6 && Inverts(invm)
    ensures |r| == 6
    ensures r[0] == Attached('n', wire[0]) && r[1] == Attached('e', wire[1]) && r[2] == Attached('d', wire[2])
    ensures r[3].letter == 'p' && r[4].letter == 'q' && r[5].letter == 'u'
    ensures r[3].value <= r[4].value && r[3].value * r[4].value == wire[4] * wire[5]
    ensures wire[4] > 0 && wire[5] > 0 && (wire[3] * wire[5]) % wire[4] == 1 % wire[4]
            ==> r[4].value > 0 && (r[3].value * r[5].value) % r[4].value == 1 % r[4].value
  {
    hide KEY_TYPES, TypeIndex, Inverts;
    var mpis := new nat[6](i requires 0 <= i < 6 => wire[i]);
    ModifyRsa(mpis, invm);
    RsaRow("ssh-rsa");
    var i := LookupType("ssh-rsa");
    var order, sexp := KEY_TYPES[i].secret, KEY_TYPES[i].sexp;
    RsaLetters(order, sexp);
    r := AttachParams(sexp, order, mpis[..]);
  }

  lemma RsaLetters(order: string, sexp: string)
    requires order == "nedupq" && sexp == "nedpqu"
    ensures order == ['n', 'e', 'd', 'u', 'p', 'q'] && sexp == ['n', 'e', 'd', 'p', 'q', 'u']
  {
    hide KEY_TYPES;
  }
}
