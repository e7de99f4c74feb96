/**
 The URL-safe alphabet of section 5 of RFC 4648: Python's encoder, and its lenient decoder,
 which skips foreign characters and stops at complete padding.
 */
module Base64 {
  import opened Common

  type Byte = b: int | 0 <= b < 256
  type Sextet = n: int | 0 <= n < 64

  function Letter(n: Sextet): (c: char)
    ensures c != '='
  {
    if n < 26 then 'A' + n as char
    else if n < 52 then 'a' + (n - 26) as char
    else if n < 62 then '0' + (n - 52) as char
    else if n == 62 then '-' else '_'
  }

  /** The decoder translates the URL-safe letters first, so it knows the standard ones as well. */
  function Value(c: char): Option<Sextet> {
    if 'A' <= c <= 'Z' then Some((c - 'A') as int)
    else if 'a' <= c <= 'z' then Some((c - 'a') as int + 26)
    else if '0' <= c <= '9' then Some((c - '0') as int + 52)
    else if c == '-' || c == '+' then Some(62)
    else if c == '_' || c == '/' then Some(63)
    else None
  }

  lemma ValueOfLetter(n: Sextet)
    ensures Value(Letter(n)) == Some(n)
  {
  }

  /** base64.urlsafe_b64encode. */
  function Encode(bytes: seq<Byte>): (s: string)
    ensures |s| % 4 == 0
    decreases |bytes|
  {
    if |bytes| == 0 then ""
    else if |bytes| == 1 then
      [Letter(bytes[0] / 4), Letter(bytes[0] % 4 * 16), '=', '=']
    else if |bytes| == 2 then
      [Letter(bytes[0] / 4), Letter(bytes[0] % 4 * 16 + bytes[1] / 16), Letter(bytes[1] % 16 * 4), '=']
    else
      [Letter(bytes[0] / 4), Letter(bytes[0] % 4 * 16 + bytes[1] / 16), Letter(bytes[1] % 16 * 4 + bytes[2] / 64),
        Letter(bytes[2] % 64)]
      + Encode(bytes[3..])
  }

  /** The decoder's state: its place in the group of four, the bits left over, and the padding seen. */
  datatype State = State(place: nat, left: nat, pads: nat)

  ghost predicate Reachable(q: State) {
    q.place < 4 && q.left < (match q.place case 1 => 64 case 2 => 16 case 3 => 4 case _ => 1)
  }

  predicate Finishes(q: State) {
    q.place >= 2 && q.place + q.pads + 1 >= 4
  }

  /** What a letter adds to the output. */
  function Output(q: State, n: Sextet): (r: seq<Byte>)
    requires Reachable(q)
  {
    match q.place
    case 0 => []
    case 1 => [q.left * 4 + n / 16]
    case 2 => [q.left * 16 + n / 4]
    case _ => [q.left * 64 + n]
  }

  function After(q: State, n: Sextet): (r: State)
    requires Reachable(q)
    ensures Reachable(r)
  {
    match q.place
    case 0 => State(1, n, 0)
    case 1 => State(2, n % 16, 0)
    case 2 => State(3, n % 4, 0)
    case _ => State(0, 0, 0)
  }

  function DecodeFrom(q: State, s: string): Option<seq<Byte>>
    requires Reachable(q)
    decreases |s|
  {
    if s == "" then (if q.place == 0 then Some([]) else None)
    else if s[0] == '=' then
      if Finishes(q) then Some([])
      else DecodeFrom(q.(pads := if q.place >= 2 then q.pads + 1 else q.pads), s[1..])
    else match Value(s[0])
         case None => DecodeFrom(q, s[1..])
         case Some(n) =>
           match DecodeFrom(After(q, n), s[1..])
           case None => None
           case Some(rest) => Some(Output(q, n) + rest)
  }

  /** base64.urlsafe_b64decode of a text that must be ASCII. */
  function Decoded(s: string): Option<seq<Byte>> {
    if exists i | 0 <= i < |s| :: s[i] >= '\U{80}' then None else DecodeFrom(State(0, 0, 0), s)
  }

  /** A text of letters needs no padding when they fill their groups of four, and otherwise what is missing. */
  lemma PaddingNeeded(letters: string, k: nat)
    requires forall i | 0 <= i < |letters| :: Value(letters[i]).Some?
    ensures Decoded(letters + Pads(k)).Some? <==>
      || |letters| % 4 == 0
      || (|letters| % 4 == 2 && k >= 2)
      || (|letters| % 4 == 3 && k >= 1)
  {
    var s := letters + Pads(k);
    assert forall i | 0 <= i < |s| :: s[i] < '\U{80}';
    LettersThenPads(State(0, 0, 0), letters, k);
  }

  function Pads(k: nat): string {
    seq(k, _ => '=')
  }

  lemma {:induction false} LettersThenPads(q: State, letters: string, k: nat)
    requires Reachable(q) && q.pads == 0
    requires forall i | 0 <= i < |letters| :: Value(letters[i]).Some?
    ensures var m := (q.place + |letters|) % 4;
      DecodeFrom(q, letters + Pads(k)).Some? <==> m == 0 || (m == 2 && k >= 2) || (m == 3 && k >= 1)
    decreases |letters|
  {
    hide DecodeFrom, After, Output, Value, Pads;
    var s := letters + Pads(k);
    if letters == "" {
      assert s == Pads(k);
      OnlyPads(q, k);
    } else {
      assert s[0] == letters[0] && s[1..] == letters[1..] + Pads(k);
      var n := Value(letters[0]).value;
      NextPlace(q, n);
      LettersThenPads(After(q, n), letters[1..], k);
      LetterFirst(q, s, n);
    }
  }

  lemma NextPlace(q: State, n: Sextet)
    requires Reachable(q)
    ensures After(q, n).place == (q.place + 1) % 4 && After(q, n).pads == 0
  {
  }

  lemma LetterFirst(q: State, s: string, n: Sextet)
    requires Reachable(q) && s != "" && Value(s[0]) == Some(n)
    ensures DecodeFrom(q, s).Some? <==> DecodeFrom(After(q, n), s[1..]).Some?
  {
  }

  lemma {:induction false} OnlyPads(q: State, k: nat)
    requires Reachable(q) && q.pads <= 1 && (q.place < 2 ==> q.pads == 0) && (q.place == 3 ==> q.pads == 0)
    ensures DecodeFrom(q, Pads(k)).Some? <==>
      q.place == 0 || (q.place == 2 && q.pads + k >= 2) || (q.place == 3 && k >= 1)
    decreases k
  {
    if k > 0 {
      assert Pads(k)[0] == '=' && Pads(k)[1..] == Pads(k - 1);
      if q.place < 2 || (q.place == 2 && q.pads == 0) {
        OnlyPads(q.(pads := if q.place >= 2 then q.pads + 1 else q.pads), k - 1);
      }
    }
  }

  method Decode(s: string) returns (r: Option<seq<Byte>>)
    ensures r == Decoded(s)
  {
    if exists i | 0 <= i < |s| :: s[i] >= '\U{80}' {
      return None;
    }
    var q := State(0, 0, 0);
    var out: seq<Byte> := [];
    assert s[0..] == s;
    JoinedTwice([], [], DecodeFrom(q, s));
    for i := 0 to |s|
      invariant Reachable(q)
      invariant Decoded(s) == Joined(out, DecodeFrom(q, s[i..]))
    {
      assert s[i..][0] == s[i] && s[i..][1..] == s[i + 1..];
      if s[i] == '=' {
        if Finishes(q) {
          assert out + [] == out;
          return Some(out);
        }
        if q.place >= 2 {
          q := q.(pads := q.pads + 1);
        }
      } else if Value(s[i]).Some? {
        JoinedTwice(out, Output(q, Value(s[i]).value), DecodeFrom(After(q, Value(s[i]).value), s[i + 1..]));
        out, q := out + Output(q, Value(s[i]).value), After(q, Value(s[i]).value);
      }
    }
    assert out + [] == out;
    r := if q.place == 0 then Some(out) else None;
  }

  ghost function Joined(out: seq<Byte>, rest: Option<seq<Byte>>): Option<seq<Byte>> {
    if rest.Some? then Some(out + rest.value) else None
  }

  lemma JoinedTwice(a: seq<Byte>, b: seq<Byte>, rest: Option<seq<Byte>>)
    ensures Joined([], rest) == rest
    ensures Joined(a, Joined(b, rest)) == Joined(a + b, rest)
  {
    if rest.Some? {
      assert [] + rest.value == rest.value;
      assert a + (b + rest.value) == (a + b) + rest.value;
    }
  }

  lemma OneLetter(q: State, n: Sextet, rest: string)
    requires Reachable(q)
    ensures DecodeFrom(q, [Letter(n)] + rest) == Joined(Output(q, n), DecodeFrom(After(q, n), rest))
  {
    assert ([Letter(n)] + rest)[1..] == rest;
    ValueOfLetter(n);
  }

  /** Two letters give a byte; what follows is decoded from the middle of the group. */
  lemma TwoLetters(a: Sextet, b: Sextet, rest: string)
    ensures DecodeFrom(State(0, 0, 0), [Letter(a), Letter(b)] + rest)
         == Joined([a * 4 + b / 16], DecodeFrom(State(2, b % 16, 0), rest))
  {
    hide DecodeFrom, Letter;
    assert [Letter(a), Letter(b)] + rest == [Letter(a)] + ([Letter(b)] + rest);
    OneLetter(State(0, 0, 0), a, [Letter(b)] + rest);
    OneLetter(State(1, a, 0), b, rest);
    JoinedTwice([], [], DecodeFrom(State(1, a, 0), [Letter(b)] + rest));
  }

  lemma ThirdLetter(left: nat, c: Sextet, rest: string)
    requires left < 16
    ensures DecodeFrom(State(2, left, 0), [Letter(c)] + rest)
      == Joined([left * 16 + c / 4], DecodeFrom(State(3, c % 4, 0), rest))
  {
    OneLetter(State(2, left, 0), c, rest);
  }

  /** Four letters in a row give three bytes and bring the decoder back to the start of a group. */
  lemma Group(a: Sextet, b: Sextet, c: Sextet, d: Sextet, rest: string)
    ensures DecodeFrom(State(0, 0, 0), [Letter(a), Letter(b), Letter(c), Letter(d)] + rest)
         == Joined([a * 4 + b / 16, b % 16 * 16 + c / 4, c % 4 * 64 + d], DecodeFrom(State(0, 0, 0), rest))
  {
    hide DecodeFrom, Letter;
    var tail := [Letter(d)] + rest;
    assert [Letter(a), Letter(b), Letter(c), Letter(d)] + rest == [Letter(a), Letter(b)] + ([Letter(c)] + tail);
    TwoLetters(a, b, [Letter(c)] + tail);
    ThirdLetter(b % 16, c, tail);
    OneLetter(State(3, c % 4, 0), d, rest);
    var r, x, y, z := DecodeFrom(State(0, 0, 0), rest), a * 4 + b / 16, b % 16 * 16 + c / 4, c % 4 * 64 + d;
    JoinedTwice([y], [z], r);
    JoinedTwice([x], [y, z], r);
    assert [y] + [z] == [y, z] && [x] + [y, z] == [x, y, z];
  }

  lemma Sextets(x: Byte, y: Byte, z: Byte)
    ensures var a, b, c, d := x / 4, x % 4 * 16 + y / 16, y % 16 * 4 + z / 64, z % 64;
      && b < 64 && c < 64
      && a * 4 + b / 16 == x && b % 16 * 16 + c / 4 == y && c % 4 * 64 + d == z
  {
    assert (x % 4 * 16 + y / 16) / 16 == x % 4;
    assert (y % 16 * 4 + z / 64) / 4 == y % 16;
  }

  /** Every byte string comes back from its encoding. */
  lemma {:induction false} DecodeEncode(bytes: seq<Byte>)
    ensures DecodeFrom(State(0, 0, 0), Encode(bytes)) == Some(bytes)
    decreases |bytes|
  {
    hide DecodeFrom, Letter;
    if |bytes| == 0 {
      DecodeNothing();
    } else if |bytes| == 1 {
      Tail(bytes[0] / 4, bytes[0] % 4 * 16);
      Sextets(bytes[0], 0, 0);
      assert bytes == [bytes[0]];
    } else if |bytes| == 2 {
      Sextets(bytes[0], bytes[1], 0);
      LongTail(bytes[0] / 4, bytes[0] % 4 * 16 + bytes[1] / 16, bytes[1] % 16 * 4);
      assert bytes == [bytes[0], bytes[1]];
    } else {
      var x, y, z := bytes[0], bytes[1], bytes[2];
      Sextets(x, y, z);
      Group(x / 4, x % 4 * 16 + y / 16, y % 16 * 4 + z / 64, z % 64, Encode(bytes[3..]));
      DecodeEncode(bytes[3..]);
      assert [x, y, z] + bytes[3..] == bytes;
    }
  }

  lemma DecodeNothing()
    ensures DecodeFrom(State(0, 0, 0), "") == Some([])
  {
  }

  /** What stands before complete padding is the end of the output. */
  lemma Padding(left: nat)
    ensures left < 16 ==> DecodeFrom(State(2, left, 0), "==") == Some([])
    ensures left < 4 ==> DecodeFrom(State(3, left, 0), "=") == Some([])
  {
    assert "=="[1..] == "=";
    assert left < 16 ==> DecodeFrom(State(2, left, 1), "=") == Some([]);
  }

  lemma Tail(a: Sextet, b: Sextet)
    ensures DecodeFrom(State(0, 0, 0), [Letter(a), Letter(b), '=', '=']) == Some([a * 4 + b / 16])
  {
    hide DecodeFrom, Letter;
    assert [Letter(a), Letter(b), '=', '='] == [Letter(a), Letter(b)] + "==";
    TwoLetters(a, b, "==");
    Padding(b % 16);
    assert [a * 4 + b / 16] + [] == [a * 4 + b / 16];
  }

  lemma LongTail(a: Sextet, b: Sextet, c: Sextet)
    ensures DecodeFrom(State(0, 0, 0), [Letter(a), Letter(b), Letter(c), '='])
      == Some([a * 4 + b / 16, b % 16 * 16 + c / 4])
  {
    hide DecodeFrom, Letter;
    assert [Letter(a), Letter(b), Letter(c), '='] == [Letter(a), Letter(b)] + ([Letter(c)] + "=");
    TwoLetters(a, b, [Letter(c)] + "=");
    ThirdLetter(b % 16, c, "=");
    Padding(c % 4);
    var x, y := a * 4 + b / 16, b % 16 * 16 + c / 4;
    JoinedTwice([x], [y], Some([]));
    assert [x] + [y] == [x, y] && [x, y] + [] == [x, y];
  }

  lemma {:induction false} EncodingIsAscii(bytes: seq<Byte>)
    ensures forall i | 0 <= i < |Encode(bytes)| :: Encode(bytes)[i] < '\U{80}'
    decreases |bytes|
  {
    if |bytes| > 2 {
      EncodingIsAscii(bytes[3..]);
    }
  }

  /** The round trip, through the ASCII check. */
  lemma RoundTrip(bytes: seq<Byte>)
    ensures Decoded(Encode(bytes)) == Some(bytes)
  {
    EncodingIsAscii(bytes);
    DecodeEncode(bytes);
  }
}
