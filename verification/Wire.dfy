/** Parcels over streams, as both ends of fbus send and receive them. */
module Wire {
  import opened Bytes
  import opened ParcelFormat
  import opened Parcels
  import opened Streams

  /** Receives an int; None if the stream ends too early. */
  method ReadInt(stream: Stream) returns (v: Option<int32>)
    modifies stream.incoming`bytes
    ensures var s := old(stream.incoming.bytes);
            if |s| < 4 then v == None
            else v == Some(IntAt(s, 0)) && stream.incoming.bytes == s[4..]
  {
    hide IntAt;
    ghost var s := stream.incoming.bytes;
    var got := stream.ReadN(4);
    if |got| != 4 {
      return None;
    }
    SameInt(got, s);
    v := Some(IntAt(got, 0));
  }

  lemma SameInt(a: seq<byte>, s: seq<byte>)
    requires |a| == 4 && a <= s
    ensures IntAt(a, 0) == IntAt(s, 0)
  {
    assert a[0..4] == s[0..4];
  }

  /** Receives `n` bytes into an empty parcel. */
  method Fill(parcel: Parcel, stream: Stream, n: nat) returns (ok: bool)
    requires parcel.Valid() && parcel.size == 0
    modifies parcel, parcel.data, stream.incoming`bytes
    ensures parcel.Valid() && (parcel.data == old(parcel.data) || fresh(parcel.data))
    ensures parcel.cursor == 0 && (ok <==> n <= |old(stream.incoming.bytes)|)
    ensures ok ==> parcel.size == n && parcel.Content() == old(stream.incoming.bytes)[..n]
    ensures ok ==> stream.incoming.bytes == old(stream.incoming.bytes)[n..]
  {
    hide Splice;
    parcel.Extend(n);
    var _ := parcel.SetSize(n);
    ghost var memory := parcel.data[..];
    var got := stream.ReadN(n);
    parcel.CopyIn(got);
    ok := |got| == n;
    SpliceFront(memory, got);
  }

  lemma SpliceFront(s: seq<byte>, part: seq<byte>)
    requires |part| <= |s|
    ensures Splice(s, 0, part)[..|part|] == part
  {
  }

  /** Sends the parcel's size and its bytes. */
  method SendSized(parcel: Parcel, stream: Stream) returns (ok: bool)
    requires parcel.Valid() && parcel.size < 0x8000_0000
    modifies stream.outgoing`bytes
    ensures ok <==> !stream.outgoing.closed
    ensures ok ==> stream.outgoing.bytes == old(stream.outgoing.bytes) + (IntBytes(parcel.size) + parcel.Content())
    ensures stream.outgoing.closed ==> stream.outgoing.bytes == old(stream.outgoing.bytes)
  {
    hide IntBytes;
    ghost var before := stream.outgoing.bytes;
    var size: int32 := parcel.size;
    var ret := stream.WriteN(IntBytes(size));
    if ret != 4 {
      return false;
    }
    ret := stream.WriteN(parcel.data[..parcel.size]);
    ok := ret == size;
    assert before + IntBytes(size) + parcel.Content() == before + (IntBytes(size) + parcel.Content());
  }
}
