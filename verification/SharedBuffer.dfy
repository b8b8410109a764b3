/** Several decoders that each put a window of one shared buffer in order, in place, one after
    the other. A window is read right before it is reordered, so a decoder may find bytes
    that an earlier one has already moved. */
module SharedBuffer {
  import opened Bytes

  datatype Window = Window(off: nat, len: nat, order: ByteOrder) {
    predicate Inside(p: nat) { off <= p < off + len }

    /** Reordering the window puts another byte at place p. */
    predicate Moves(p: nat) { Inside(p) && Source(order, len, p - off) != p - off }
  }

  ghost predicate Fits(ws: seq<Window>, n: nat) {
    forall j :: 0 <= j < |ws| ==> ws[j].off + ws[j].len <= n
  }

  /** The buffer after the first i windows were reordered. */
  ghost function Replay(buf: seq<byte>, ws: seq<Window>, i: nat): (r: seq<byte>)
    requires Fits(ws, |buf|) && i <= |ws|
    ensures |r| == |buf|
  {
    if i == 0 then buf
    else ReorderedAt(Replay(buf, ws, i - 1), ws[i - 1].off, ws[i - 1].len, ws[i - 1].order)
  }

  /** What decoder j is given. */
  ghost function Handed(buf: seq<byte>, ws: seq<Window>, j: nat): seq<byte>
    requires Fits(ws, |buf|) && j < |ws|
  {
    Replay(buf, ws, j)[ws[j].off..ws[j].off + ws[j].len]
  }

  /** Decoder j is given the bytes the buffer held at the start. */
  ghost predicate GivenOwn(buf: seq<byte>, ws: seq<Window>, j: nat)
    requires Fits(ws, |buf|) && j < |ws|
  {
    Handed(buf, ws, j) == buf[ws[j].off..ws[j].off + ws[j].len]
  }

  ghost predicate AllGivenOwn(buf: seq<byte>, ws: seq<Window>)
    requires Fits(ws, |buf|)
  {
    forall j :: 0 <= j < |ws| ==> GivenOwn(buf, ws, j)
  }

  ghost predicate Disturbs(w: Window, v: Window) {
    exists p: nat :: v.Inside(p) && w.Moves(p)
  }

  /** No window moves a byte of a later one. */
  ghost predicate Undisturbed(ws: seq<Window>) {
    forall i, j :: 0 <= i < j < |ws| ==> !Disturbs(ws[i], ws[j])
  }

  // ----- where the bytes come from -----

  /** The place that the byte found at p, after the first i windows were reordered, had at the start. */
  ghost function Origin(ws: seq<Window>, i: nat, p: nat): nat
    requires i <= |ws|
  {
    if i == 0 then p else Origin(ws, i - 1, Came(ws[i - 1], p))
  }

  /** The place that the byte found at p, after the window was reordered, had right before. */
  ghost function Came(w: Window, p: nat): nat {
    if w.Inside(p) then w.off + Source(w.order, w.len, p - w.off) else p
  }

  /** Every byte of window j is where it was at the start when decoder j reads it. */
  ghost predicate OwnPlaces(ws: seq<Window>, j: nat)
    requires j < |ws|
  {
    forall p: nat :: ws[j].Inside(p) ==> Origin(ws, j, p) == p
  }

  lemma {:induction false} ReplayOrigin(buf: seq<byte>, ws: seq<Window>, i: nat, p: nat)
    requires Fits(ws, |buf|) && i <= |ws| && p < |buf|
    ensures Origin(ws, i, p) < |buf| && Replay(buf, ws, i)[p] == buf[Origin(ws, i, p)]
  {
    if i > 0 {
      var w := ws[i - 1];
      assert w.off + w.len <= |buf|;
      ReplayOrigin(buf, ws, i - 1, Came(w, p));
    }
  }

  lemma {:induction false} OriginUntouched(ws: seq<Window>, from: nat, i: nat, p: nat)
    requires from <= i <= |ws| && forall m :: from <= m < i ==> !ws[m].Moves(p)
    ensures Origin(ws, i, p) == Origin(ws, from, p)
  {
    if from < i {
      assert !ws[i - 1].Moves(p);
      OriginUntouched(ws, from, i - 1, p);
    }
  }

  /** Decoder j is given its own bytes, whatever the buffer holds, exactly when each of them is in its
      place at that time. */
  lemma GivenOwnExactly(ws: seq<Window>, n: nat, j: nat)
    requires Fits(ws, n) && j < |ws|
    ensures (forall buf: seq<byte> | |buf| == n :: GivenOwn(buf, ws, j)) <==> OwnPlaces(ws, j)
  {
    if OwnPlaces(ws, j) {
      forall buf: seq<byte> | |buf| == n ensures GivenOwn(buf, ws, j) {
        GivenOwnBytes(buf, ws, j);
      }
    } else {
      var buf := ForeignByte(ws, n, j);
    }
  }

  lemma GivenOwnBytes(buf: seq<byte>, ws: seq<Window>, j: nat)
    requires Fits(ws, |buf|) && j < |ws| && OwnPlaces(ws, j)
    ensures GivenOwn(buf, ws, j)
  {
    var w := ws[j];
    assert w.off + w.len <= |buf|;
    forall k | 0 <= k < w.len ensures Handed(buf, ws, j)[k] == buf[w.off..w.off + w.len][k] {
      assert w.Inside(w.off + k);
      ReplayOrigin(buf, ws, j, w.off + k);
    }
  }

  /** A buffer with a single 1, at a place of window j whose byte was moved away. */
  lemma ForeignByte(ws: seq<Window>, n: nat, j: nat) returns (buf: seq<byte>)
    requires Fits(ws, n) && j < |ws| && !OwnPlaces(ws, j)
    ensures |buf| == n && !GivenOwn(buf, ws, j)
  {
    var w := ws[j];
    var p: nat :| w.Inside(p) && Origin(ws, j, p) != p;
    buf := seq(n, x => if x == p then 1 else 0);
    ReplayOrigin(buf, ws, j, p);
    assert Handed(buf, ws, j)[p - w.off] == buf[Origin(ws, j, p)];
    assert buf[w.off..w.off + w.len][p - w.off] == buf[p];
  }

  // ----- all decoders at once -----

  lemma UndisturbedStays(ws: seq<Window>, j: nat)
    requires j < |ws| && forall i :: 0 <= i < j ==> !Disturbs(ws[i], ws[j])
    ensures OwnPlaces(ws, j)
  {
    forall p: nat | ws[j].Inside(p) ensures Origin(ws, j, p) == p {
      forall m | 0 <= m < j ensures !ws[m].Moves(p) {
        assert !Disturbs(ws[m], ws[j]);
      }
      OriginUntouched(ws, 0, j, p);
    }
  }

  lemma {:induction false} FirstDisturbed(ws: seq<Window>, m: nat) returns (i: nat, j: nat)
    requires m <= |ws| && exists a, b :: 0 <= a < b < m && Disturbs(ws[a], ws[b])
    ensures i < j < m && Disturbs(ws[i], ws[j])
    ensures forall a, b :: 0 <= a < b < j ==> !Disturbs(ws[a], ws[b])
  {
    if exists a, b :: 0 <= a < b < m - 1 && Disturbs(ws[a], ws[b]) {
      i, j := FirstDisturbed(ws, m - 1);
    } else {
      var a, b :| 0 <= a < b < m && Disturbs(ws[a], ws[b]);
      i, j := a, b;
    }
  }

  /** The first window with a disturbed byte is given that byte from another place. */
  lemma FirstIsForeign(ws: seq<Window>, i: nat, j: nat)
    requires i < j < |ws| && Disturbs(ws[i], ws[j])
    requires forall a, b :: 0 <= a < b < j ==> !Disturbs(ws[a], ws[b])
    ensures !OwnPlaces(ws, j)
  {
    var w := ws[i];
    var p: nat :| ws[j].Inside(p) && w.Moves(p);
    var q := Came(w, p);
    forall m | i + 1 <= m < j ensures !ws[m].Moves(p) {
      assert !Disturbs(w, ws[m]);
    }
    OriginUntouched(ws, i + 1, j, p);
    forall m | 0 <= m < i ensures !ws[m].Moves(q) {
      assert w.Inside(q) && !Disturbs(ws[m], w);
    }
    OriginUntouched(ws, 0, i, q);
  }

  /** All decoders read their own bytes exactly when no window moves a byte of a later one. */
  lemma OwnPlacesExactly(ws: seq<Window>)
    ensures (forall j :: 0 <= j < |ws| ==> OwnPlaces(ws, j)) <==> Undisturbed(ws)
  {
    if Undisturbed(ws) {
      forall j | 0 <= j < |ws| ensures OwnPlaces(ws, j) {
        UndisturbedStays(ws, j);
      }
    } else {
      var i, j := FirstDisturbed(ws, |ws|);
      FirstIsForeign(ws, i, j);
    }
  }

  /** Every decoder is given its own bytes, whatever the buffer holds, exactly when no window
      moves a byte of a later window. */
  lemma OwnBytesExactly(ws: seq<Window>, n: nat)
    requires Fits(ws, n)
    ensures (forall buf: seq<byte> | |buf| == n :: AllGivenOwn(buf, ws)) <==> Undisturbed(ws)
  {
    OwnPlacesExactly(ws);
    if Undisturbed(ws) {
      forall buf: seq<byte>, j | |buf| == n && 0 <= j < |ws| ensures GivenOwn(buf, ws, j) {
        GivenOwnBytes(buf, ws, j);
      }
    } else {
      var j :| 0 <= j < |ws| && !OwnPlaces(ws, j);
      var buf := ForeignByte(ws, n, j);
      assert !AllGivenOwn(buf, ws);
    }
  }
}
