/** The text `unix_ms_to_utc` of core/src/audit.rs prints: `{y:04}-{m:02}-{d:02}T{hh:02}:{mm:02}:{ss:02}.{millis:03}Z`. */
module UtcText {
  import opened Common
  import opened Text
  import opened Calendar

  /** Everything after the year; every piece has a fixed length. */
  function AfterYear(m: nat, d: nat, hh: nat, mm: nat, ss: nat, millis: nat): seq<string> {
    ["-", Padded(m, 2), "-", Padded(d, 2), "T", Padded(hh, 2), ":", Padded(mm, 2), ":", Padded(ss, 2), ".", Padded(millis, 3), "Z"]
  }

  function Printed(y: nat, rest: seq<string>): string {
    Padded(y, 4) + Flatten(rest)
  }

  function UtcTextOf(u: Utc): string
    requires u.date.year >= 0 && u.date.month >= 0 && u.date.day >= 0
  {
    Printed(u.date.year, AfterYear(u.date.month, u.date.day, u.hh, u.mm, u.ss, u.millis))
  }

  function UnixMsToUtcText(ts: nat): string {
    UtcRoundTrip(ts);
    YearNotNegative(ts / 1000 / 86_400);
    UtcTextOf(UnixMsToUtc(ts))
  }

  predicate InFormat(u: Utc) {
    u.date.year >= 0 && 0 <= u.date.month < 100 && 0 <= u.date.day < 100 && u.hh < 100 && u.mm < 100 && u.ss < 100 && u.millis < 1000
  }

  function Pieces(u: Utc): seq<string>
    requires InFormat(u)
  {
    AfterYear(u.date.month, u.date.day, u.hh, u.mm, u.ss, u.millis)
  }

  function PieceLength(i: nat): nat {
    if i == 1 || i == 3 || i == 5 || i == 7 || i == 9 then 2 else if i == 11 then 3 else 1
  }

  lemma PieceLengths(u: Utc)
    requires InFormat(u)
    ensures |Pieces(u)| == 13 && forall i :: 0 <= i < 13 ==> |Pieces(u)[i]| == PieceLength(i)
  {
    PaddedLength(u.date.month);
    PaddedLength(u.date.day);
    PaddedLength(u.hh);
    PaddedLength(u.mm);
    PaddedLength(u.ss);
    PaddedLength(u.millis);
    LengthsOf(Padded(u.date.month, 2), Padded(u.date.day, 2), Padded(u.hh, 2), Padded(u.mm, 2), Padded(u.ss, 2), Padded(u.millis, 3));
  }

  lemma LengthsOf(a: string, b: string, c: string, d: string, e: string, f: string)
    requires |a| == |b| == |c| == |d| == |e| == 2 && |f| == 3
    ensures var p := ["-", a, "-", b, "T", c, ":", d, ":", e, ".", f, "Z"];
      forall i :: 0 <= i < 13 ==> |p[i]| == PieceLength(i)
  {
  }

  /* ---- Reading the text ---- */

  /** The piece of `len` characters that starts `fromEnd` characters before the end. */
  function Piece(t: string, fromEnd: nat, len: nat): string {
    if len <= fromEnd <= |t| then t[|t| - fromEnd..|t| - fromEnd + len] else ""
  }

  /** Where piece `k` begins. */
  function Offset(k: nat): nat {
    if k == 0 then 0 else Offset(k - 1) + PieceLength(k - 1)
  }

  lemma {:induction false} OffsetOf(p: seq<string>, k: nat)
    requires |p| == 13 && k <= 13 && forall i :: 0 <= i < 13 ==> |p[i]| == PieceLength(i)
    ensures |Flatten(p[..k])| == Offset(k)
  {
    if k > 0 {
      assert p[..k][..k - 1] == p[..k - 1];
      OffsetOf(p, k - 1);
    }
  }

  lemma PieceOfTail(y: string, tail: string, o: nat, x: string)
    requires |tail| == 20 && SliceAt(tail, o, x)
    ensures Piece(y + tail, 20 - o, |x|) == x
  {
    var t := y + tail;
    assert t[|y| + o..|y| + o + |x|] == tail[o..o + |x|];
  }

  lemma TailLength(p: seq<string>)
    requires |p| == 13 && forall i :: 0 <= i < 13 ==> |p[i]| == PieceLength(i)
    ensures |Flatten(p)| == 20
  {
    OffsetOf(p, 13);
    assert p[..13] == p;
    assert Offset(13) == 20 by {
      assert Offset(4) == 6;
      assert Offset(8) == 12;
      assert Offset(11) == 16;
    }
  }

  lemma PieceAt(y: string, p: seq<string>, k: nat)
    requires |p| == 13 && k < 13 && forall i :: 0 <= i < 13 ==> |p[i]| == PieceLength(i)
    ensures Offset(k) <= 20 && Piece(y + Flatten(p), 20 - Offset(k), PieceLength(k)) == p[k]
  {
    TailLength(p);
    OffsetOf(p, k);
    FlattenSlice(p, k);
    PieceOfTail(y, Flatten(p), Offset(k), p[k]);
  }

  /** Piece `k` of a text of the format. */
  predicate HasPiece(t: string, k: nat, x: string) {
    Offset(k) <= 20 && Piece(t, 20 - Offset(k), PieceLength(k)) == x
  }

  lemma FieldAt(u: Utc, k: nat)
    requires InFormat(u) && k < 13
    ensures |Pieces(u)| == 13 && HasPiece(UtcTextOf(u), k, Pieces(u)[k])
  {
    PieceLengths(u);
    PieceAt(Padded(u.date.year, 4), Pieces(u), k);
  }

  /** The text as a reader of the format sees it, counted from its end: year, month, day, hour, minute,
      second and millisecond, each in its place, and the separators between them. */
  predicate Reads(t: string, u: Utc) {
    && |t| >= 24 && Number(t[..|t| - 20]) == u.date.year
    && Piece(t, 20, 1) == "-" && Number(Piece(t, 19, 2)) == u.date.month
    && Piece(t, 17, 1) == "-" && Number(Piece(t, 16, 2)) == u.date.day
    && Piece(t, 14, 1) == "T" && Number(Piece(t, 13, 2)) == u.hh
    && Piece(t, 11, 1) == ":" && Number(Piece(t, 10, 2)) == u.mm
    && Piece(t, 8, 1) == ":" && Number(Piece(t, 7, 2)) == u.ss
    && Piece(t, 5, 1) == "." && Number(Piece(t, 4, 3)) == u.millis
    && Piece(t, 1, 1) == "Z"
  }

  lemma MonthReads(t: string, n: nat)
    requires HasPiece(t, 0, "-") && HasPiece(t, 1, Padded(n, 2))
    ensures Piece(t, 20, 1) == "-" && Number(Piece(t, 19, 2)) == n
  {
    assert Offset(1) == 1;
    PaddedNumber(n, 2);
  }

  lemma DayReads(t: string, n: nat)
    requires HasPiece(t, 2, "-") && HasPiece(t, 3, Padded(n, 2))
    ensures Piece(t, 17, 1) == "-" && Number(Piece(t, 16, 2)) == n
  {
    assert Offset(2) == 3;
    PaddedNumber(n, 2);
  }

  lemma HourReads(t: string, n: nat)
    requires HasPiece(t, 4, "T") && HasPiece(t, 5, Padded(n, 2))
    ensures Piece(t, 14, 1) == "T" && Number(Piece(t, 13, 2)) == n
  {
    assert Offset(3) == 4;
    assert Offset(4) == 6;
    PaddedNumber(n, 2);
  }

  lemma MinuteReads(t: string, n: nat)
    requires HasPiece(t, 6, ":") && HasPiece(t, 7, Padded(n, 2))
    ensures Piece(t, 11, 1) == ":" && Number(Piece(t, 10, 2)) == n
  {
    assert Offset(4) == 6;
    assert Offset(6) == 9;
    PaddedNumber(n, 2);
  }

  lemma SecondReads(t: string, n: nat)
    requires HasPiece(t, 8, ":") && HasPiece(t, 9, Padded(n, 2))
    ensures Piece(t, 8, 1) == ":" && Number(Piece(t, 7, 2)) == n
  {
    assert Offset(6) == 9;
    assert Offset(8) == 12;
    PaddedNumber(n, 2);
  }

  lemma MillisRead(t: string, n: nat)
    requires HasPiece(t, 10, ".") && HasPiece(t, 11, Padded(n, 3))
    ensures Piece(t, 5, 1) == "." && Number(Piece(t, 4, 3)) == n
  {
    assert Offset(8) == 12;
    assert Offset(10) == 15;
    PaddedNumber(n, 3);
  }

  lemma ZReads(t: string)
    requires HasPiece(t, 12, "Z")
    ensures Piece(t, 1, 1) == "Z"
  {
    assert Offset(8) == 12;
    assert Offset(10) == 15;
  }

  lemma YearReads(u: Utc)
    requires InFormat(u)
    ensures var t := UtcTextOf(u); |t| >= 24 && Number(t[..|t| - 20]) == u.date.year
  {
    var y, tail := Padded(u.date.year, 4), Flatten(Pieces(u));
    PieceLengths(u);
    TailLength(Pieces(u));
    PaddedNumber(u.date.year, 4);
    AtLeast(u.date.year, 4);
    assert (y + tail)[..|y|] == y;
  }

  lemma PiecesRead(t: string, u: Utc)
    requires InFormat(u) && forall k :: 0 <= k < 13 ==> HasPiece(t, k, Pieces(u)[k])
    requires |t| >= 24 && Number(t[..|t| - 20]) == u.date.year
    ensures Reads(t, u)
  {
    var p := Pieces(u);
    assert HasPiece(t, 0, p[0]) && HasPiece(t, 1, p[1]) && HasPiece(t, 2, p[2]) && HasPiece(t, 3, p[3]) && HasPiece(t, 4, p[4]);
    assert HasPiece(t, 5, p[5]) && HasPiece(t, 6, p[6]) && HasPiece(t, 7, p[7]) && HasPiece(t, 8, p[8]) && HasPiece(t, 9, p[9]);
    assert HasPiece(t, 10, p[10]) && HasPiece(t, 11, p[11]) && HasPiece(t, 12, p[12]);
    MonthReads(t, u.date.month);
    DayReads(t, u.date.day);
    HourReads(t, u.hh);
    MinuteReads(t, u.mm);
    SecondReads(t, u.ss);
    MillisRead(t, u.millis);
    ZReads(t);
  }

  /** The text of every timestamp reads as its date and time. */
  lemma UtcTextReads(ts: nat)
    ensures Reads(UnixMsToUtcText(ts), UnixMsToUtc(ts))
  {
    var u := UnixMsToUtc(ts);
    UtcInFormat(ts);
    YearReads(u);
    forall k | 0 <= k < 13 ensures HasPiece(UtcTextOf(u), k, Pieces(u)[k]) {
      FieldAt(u, k);
    }
    PiecesRead(UtcTextOf(u), u);
  }

  lemma UtcInFormat(ts: nat)
    ensures InFormat(UnixMsToUtc(ts))
  {
    UtcRoundTrip(ts);
    YearNotNegative(ts / 1000 / 86_400);
  }

  lemma FieldsDetermine(a: nat, b: nat)
    requires UnixMsToUtc(a) == UnixMsToUtc(b)
    ensures a == b
  {
    UtcRoundTrip(a);
    UtcRoundTrip(b);
  }

  lemma OneReading(t: string, u: Utc, v: Utc)
    requires Reads(t, u) && Reads(t, v)
    ensures u == v
  {
  }

  /** Different timestamps print different texts, to the millisecond and for any year. */
  lemma UtcTextInjective(a: nat, b: nat)
    requires UnixMsToUtcText(a) == UnixMsToUtcText(b)
    ensures a == b
  {
    UtcTextReads(a);
    UtcTextReads(b);
    OneReading(UnixMsToUtcText(a), UnixMsToUtc(a), UnixMsToUtc(b));
    FieldsDetermine(a, b);
  }
}
