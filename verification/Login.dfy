/** The MD5 login: the answer to a login key (bos_md5snac of imcomm/bos_signon.c). */
module Login {
  import opened Bytes
  import opened Packets
  import opened Tlvs
  import opened Wrappers
  import opened Builders
  import Md5
  import Rfc = Md5Rfc

  const AIM_MD5_STRING := Builders.Octets("AOL Instant Messenger (SM)")

  function Joined(pieces: seq<seq<byte>>): seq<byte> {
    if pieces == [] then [] else Joined(pieces[..|pieces| - 1]) + pieces[|pieces| - 1]
  }

  lemma SaltLength()
    ensures |AIM_MD5_STRING| == 26
  {
  }

  lemma DigestLength(m: seq<byte>)
    ensures |Rfc.Digest(m)| == 16
  {
    hide Rfc.Fold, Rfc.Pad;
  }

  lemma JoinedStep(pieces: seq<seq<byte>>, k: nat)
    requires k < |pieces|
    ensures Joined(pieces[..0]) == []
    ensures Joined(pieces[..k + 1]) == Joined(pieces[..k]) + pieces[k]
  {
    assert pieces[..k + 1][..k] == pieces[..k];
  }

  /** However a message is cut into md5_append calls, the digest is that of the whole message. */
  method HashPieces(host: Host, pieces: seq<seq<byte>>) returns (hash: seq<byte>)
    requires forall k | 0 <= k < |pieces| :: |Joined(pieces[..k])| % 64 + |pieces[k]| < 0x8000_0000
    ensures hash == Rfc.Digest(Joined(pieces))
  {
    hide Rfc.Digest, Md5.Md5State.Valid;
    var state := new Md5.Md5State(host);
    for k := 0 to |pieces|
      invariant state.Valid() && state.message == Joined(pieces[..k])
      invariant fresh(state) && fresh(state.abcd) && fresh(state.buf)
    {
      JoinedStep(pieces, k);
      state.Append(pieces[k], |pieces[k]|);
      assert pieces[k][..|pieces[k]|] == pieces[k];
    }
    assert pieces[..|pieces|] == pieces;
    hash := state.Finish();
  }

  /** The login key of an SNAC(17,07): its length, and the key itself. */
  function Key(data: seq<byte>): seq<byte>
    requires |data| >= 12 && |data| >= 12 + Of16(data[10..12])
  {
    data[12..12 + Of16(data[10..12])]
  }

  /** The hash part of bos_md5snac: three calls of md5_append. */
  method LoginHash(host: Host, key: seq<byte>, pw: seq<byte>) returns (hash: seq<byte>)
    requires |key| < 0x1_0000 && |key| % 64 + |pw| < 0x8000_0000
    ensures hash == Rfc.Digest(key + pw + AIM_MD5_STRING) && |hash| == 16
  {
    hide *;
    SaltLength();
    DigestLength(key + pw + AIM_MD5_STRING);
    var salt := AIM_MD5_STRING;
    assert key[..|key|] == key && pw[..|pw|] == pw && salt[..|salt|] == salt;
    var state := new Md5.Md5State(host);
    state.Append(key, |key|);
    state.Append(pw, |pw|);
    state.Append(salt, |salt|);
    assert state.message == key + pw + salt;
    hash := state.Finish();
  }

  /**
   bos_md5snac on an SNAC(17,07): a full login packet whose hash is the MD5 of the key, the
   password and the constant. Other subtypes are not answered here.
   */
  method Answer(host: Host, data: seq<byte>, sn: seq<byte>, pw: seq<byte>)
    returns (reply: Option<Packet>, ghost all: seq<Tlv>)
    requires |data| > 3 && (data[3] == 0x07 ==> |data| >= 12 && |data| >= 12 + Of16(data[10..12]))
    requires |sn| < 0x1_0000 && (data[3] == 0x07 ==> |Key(data)| % 64 + |pw| < 0x8000_0000)
    ensures reply.Some? <==> data[3] == 0x07
    ensures reply.Some? ==>
              && |all| == 12 && all[0] == Tlv(0x0001, sn)
              && all[1] == Tlv(0x0025, Rfc.Digest(Key(data) + pw + AIM_MD5_STRING))
              && IsLogin(all, sn, Rfc.Digest(Key(data) + pw + AIM_MD5_STRING))
              && Complete(reply.value, all)
  {
    hide Complete, Rfc.Digest, AIM_MD5_STRING, Of16;
    if data[3] == 0x07 {
      var len := TwoTo16(host, data[10..]);
      assert data[10..][..2] == data[10..12];
      var key := data[12..12 + len];
      var hash := LoginHash(host, key, pw);
      var p;
      p, all := LoginBody(host, sn, hash);
      return Some(p), all;
    } else {
      return None, [];
    }
  }
}
