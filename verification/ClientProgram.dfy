/** The client program: the message it generates and the requests it makes over one connection. */
module ClientProgram {
  import opened Bytes
  import opened Protocol
  import F = Framing
  import S = Segmentation

  predicate AlphaNumeric(c: char) {
    'a' <= c <= 'z' || 'A' <= c <= 'Z' || '0' <= c <= '9'
  }

  /** charset: the small letters, the capitals and the digits, in this order. */
  const CHARSET: seq<char> := seq(62, i requires 0 <= i < 62 => Letter(i))

  function Letter(i: nat): (c: char)
    requires i < 62
    ensures AlphaNumeric(c)
  {
    if i < 26 then 'a' + i as char else if i < 52 then 'A' + (i - 26) as char else '0' + (i - 52) as char
  }

  /** Each letter and digit is in the set once, and nothing else is. */
  lemma CharsetIs(c: char)
    ensures c in CHARSET <==> AlphaNumeric(c)
    ensures forall i, j | 0 <= i < j < |CHARSET| :: CHARSET[i] != CHARSET[j]
  {
    if 'a' <= c <= 'z' {
      assert CHARSET[c as int - 'a' as int] == c;
    } else if 'A' <= c <= 'Z' {
      assert CHARSET[26 + c as int - 'A' as int] == c;
    } else if '0' <= c <= '9' {
      assert CHARSET[52 + c as int - '0' as int] == c;
    }
  }

  /** strlen: the index of the first NUL. */
  function StrLen(s: seq<char>): (n: nat)
    requires '\0' in s
    ensures n < |s| && s[n] == '\0' && forall i | 0 <= i < n :: s[i] != '\0'
  {
    if s[0] == '\0' then 0 else 1 + StrLen(s[1..])
  }

  /** make_random_string, when rand(n) is what the n-th call of rand() returns: the string has the requested length. */
  method MakeRandomString(length: nat, rand: nat -> nat) returns (s: array<char>)
    requires 0 < length
    ensures fresh(s) && '\0' in s[..] && StrLen(s[..]) == length && s.Length == length + 1
    ensures forall i | 0 <= i < length :: s[i] == CHARSET[rand(i) % 62] && AlphaNumeric(s[i])
  {
    s := new char[length + 1];
    for n := 0 to length
      invariant forall i | 0 <= i < n :: s[i] == CHARSET[rand(i) % 62] && AlphaNumeric(s[i])
    {
      var key := rand(n) % 62;
      s[n] := CHARSET[key];
      assert s[n] == Letter(key);
    }
    s[length] := '\0';
    assert s[..][length] == '\0';
    LengthIs(s[..], length);
  }

  lemma LengthIs(s: seq<char>, length: nat)
    requires length < |s| && s[length] == '\0' && forall i | 0 <= i < length :: s[i] != '\0'
    ensures StrLen(s) == length
  {
    assert StrLen(s) <= length;
  }

  /** k copies of the message. */
  function Copies(msg: seq<byte>, k: nat): (bodies: seq<seq<byte>>)
    ensures |bodies| == k && S.Uniform(bodies, |msg|)
  {
    seq(k, _ => msg)
  }

  /** Requests i.. of the session, without the final size. */
  function Requests(msg: seq<byte>, k: nat): seq<byte>
  {
    if k == 0 then [] else Requests(msg, k - 1) + S.Frame(msg)
  }

  lemma {:induction false} RequestsBeforeStream(msg: seq<byte>, k: nat)
    ensures S.Stream(Copies(msg, k)) == Requests(msg, k) + U32Bytes(0)
  {
    if k == 0 {
      assert Copies(msg, 0) == [];
    } else {
      RequestsBeforeStream(msg, k - 1);
      FirstOrLast(msg, k - 1);
      assert Copies(msg, k)[1..] == Copies(msg, k - 1);
      Regroup(S.Frame(msg), Requests(msg, k - 1), U32Bytes(0));
    }
  }

  lemma Regroup(a: seq<byte>, b: seq<byte>, c: seq<byte>)
    ensures a + (b + c) == (a + b) + c
  {
  }

  lemma {:induction false} FirstOrLast(msg: seq<byte>, k: nat)
    ensures S.Frame(msg) + Requests(msg, k) == Requests(msg, k) + S.Frame(msg)
  {
    if k == 0 {
      assert S.Frame(msg) + [] == [] + S.Frame(msg);
    } else {
      FirstOrLast(msg, k - 1);
      Regroup(S.Frame(msg), Requests(msg, k - 1), S.Frame(msg));
    }
  }

  /** One pass through the request loop: size, message, and a read of as many bytes as were sent. */
  method OneRequest(sock: Socket, field: array<byte>, msg: array<byte>, reply: array<byte>) returns (bytesRead: nat)
    requires sock.blocking && sock.reliable && (sock.closing || msg.Length <= |sock.Pending()|)
    requires 0 < msg.Length < U32_LIMIT && reply.Length == msg.Length && field.Length == 4
    requires field != reply && msg != reply && field[..] == U32Bytes(msg.Length)
    modifies sock`queue, sock`wire, sock`taken, sock`sent, sock`stalls, reply
    ensures sock.sent == old(sock.sent) + S.Frame(msg[..])
    ensures bytesRead == (if msg.Length <= |old(sock.Pending())| then msg.Length else |old(sock.Pending())|)
    ensures |sock.Pending()| + bytesRead == |old(sock.Pending())|
  {
    var r := SendData(sock, field, 0, 4);
    assert field[0..4] == field[..];
    r := SendData(sock, msg, 0, msg.Length);
    assert msg[0..msg.Length] == msg[..];
    assert sock.sent == old(sock.sent) + S.Frame(msg[..]);
    r := ReadData(sock, reply, 0, msg.Length);
    bytesRead := r.n;
  }

  /**
   The request loop of clients() and the final zero size, when no call fails. The client sends exactly
   the uniform stream the servers rely on, and counts the bytes it is sent back, up to k times the
   message size.
   */
  method Session(sock: Socket, msg: array<byte>, maxRequests: nat) returns (clientCount: nat, dataReceived: nat)
    requires sock.blocking && sock.reliable && 0 < msg.Length < U32_LIMIT
    requires sock.closing || maxRequests * msg.Length <= |sock.Pending()|
    modifies sock`queue, sock`wire, sock`taken, sock`sent, sock`stalls
    ensures sock.sent == old(sock.sent) + S.Stream(Copies(old(msg[..]), maxRequests))
    ensures clientCount == maxRequests
    ensures var most, coming := maxRequests * msg.Length, |old(sock.Pending())|;
            dataReceived == if most <= coming then most else coming
  {
    hide S.Stream, S.Frame, Copies, Requests;
    ghost var before, coming, body := sock.sent, |sock.Pending()|, msg[..];
    var reply := new byte[msg.Length];
    var field := SizeField(msg.Length);
    clientCount, dataReceived := 0, 0;
    RequestsStep(before, body, 0);
    for i := 0 to maxRequests
      invariant field[..] == U32Bytes(msg.Length) && msg[..] == body && clientCount == i
      invariant sock.sent == before + Requests(body, i)
      invariant dataReceived + |sock.Pending()| == coming
      invariant dataReceived == if i * msg.Length <= coming then i * msg.Length else coming
    {
      MulNext(i, maxRequests, msg.Length);
      RequestsStep(before, body, i);
      var bytesRead := OneRequest(sock, field, msg, reply);
      dataReceived := dataReceived + bytesRead;
      clientCount := clientCount + 1;
    }
    var zero := SizeField(0);
    var r := SendData(sock, zero, 0, 4);
    assert zero[0..4] == zero[..];
    RequestsBeforeStream(body, maxRequests);
    assert before + Requests(body, maxRequests) + U32Bytes(0) == before + (Requests(body, maxRequests) + U32Bytes(0));
  }

  /** A uint32_t in memory. */
  method SizeField(size: nat) returns (field: array<byte>)
    requires size < U32_LIMIT
    ensures fresh(field) && field.Length == 4 && field[..] == U32Bytes(size)
  {
    var bytes := U32Bytes(size);
    field := new byte[4](i requires 0 <= i < 4 => bytes[i]);
  }

  lemma RequestsStep(before: seq<byte>, msg: seq<byte>, i: nat)
    ensures before + Requests(msg, 0) == before
    ensures before + Requests(msg, i) + S.Frame(msg) == before + Requests(msg, i + 1)
  {
  }

  lemma MulNext(i: nat, k: nat, n: nat)
    requires i < k
    ensures (i + 1) * n == i * n + n && (i + 1) * n <= k * n
  {
    MulLe(i + 1, k, n);
  }

  /** What the client sends is a stream that the select and epoll servers frame correctly. */
  lemma SessionIsFramed(msg: seq<byte>, k: nat)
    requires 0 < |msg| < U32_LIMIT
    ensures var s := S.Stream(Copies(msg, k)); F.FrameStream(s, |msg|) && F.Complete(s, |msg|)
  {
    S.StreamShape(Copies(msg, k), |msg|);
  }
}
