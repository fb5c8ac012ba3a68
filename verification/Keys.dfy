/** The keys of state machine objects, and why the command slot below one is never another object's key. */
module Keys {
  import opened Wrappers
  import opened ByteStrings
  import opened Backend

  datatype KeyError = EmptyKey | NulInKey | EmptySegment | ReservedSegment(segment: string)

  /** What splitting on '/' gives; there is always at least one segment. */
  function Split(s: string): (r: seq<string>)
    ensures r != []
  {
    if s == [] then [""]
    else
      var rest := Split(s[1..]);
      if s[0] == '/' then [""] + rest else [[s[0]] + rest[0]] + rest[1..]
  }

  function Join(segments: seq<string>): string
    requires segments != []
  {
    if |segments| == 1 then segments[0] else segments[0] + "/" + Join(segments[1..])
  }

  predicate Reserved(segment: string) {
    segment == "." || segment == ".." || segment == "rpc"
  }

  function FirstReserved(segments: seq<string>): Option<string> {
    if segments == [] then None
    else if Reserved(segments[0]) then Some(segments[0])
    else FirstReserved(segments[1..])
  }

  function ValidateFsmKey(key: string): Result<string, KeyError> {
    if key == "" then Failure(EmptyKey)
    else if '\0' in key then Failure(NulInKey)
    else
      var segments := Split(key);
      if "" in segments then Failure(EmptySegment)
      else
        var invalid := FirstReserved(segments);
        if invalid.Some? then Failure(ReservedSegment(invalid.value)) else Success(key)
  }

  lemma {:induction false} FirstReservedFinds(segments: seq<string>)
    ensures FirstReserved(segments).None? <==> forall x :: x in segments ==> !Reserved(x)
  {
    if segments != [] && !Reserved(segments[0]) {
      FirstReservedFinds(segments[1..]);
      assert forall x :: x in segments <==> x == segments[0] || x in segments[1..];
    }
  }

  /** Splitting is the only way to take a string apart at its slashes. */
  lemma {:induction false} SplitExactly(s: string)
    ensures Join(Split(s)) == s
    ensures forall x :: x in Split(s) ==> '/' !in x
  {
    if s != [] {
      var rest := Split(s[1..]);
      SplitExactly(s[1..]);
      if s[0] == '/' {
        assert Split(s)[1..] == rest;
        assert "" + "/" + Join(rest) == ['/'] + s[1..];
      } else {
        var head := [s[0]] + rest[0];
        if |rest| > 1 {
          assert Split(s)[1..] == rest[1..];
          assert head + "/" + Join(rest[1..]) == [s[0]] + (rest[0] + "/" + Join(rest[1..]));
        }
        assert forall x :: x in Split(s) ==> x == head || x in rest[1..];
        assert rest[0] in rest;
      }
    }
  }

  lemma {:induction false} SplitStep(c: char, s: string)
    ensures var rest := Split(s);
            Split([c] + s) == if c == '/' then [""] + rest else [[c] + rest[0]] + rest[1..]
  {
    assert ([c] + s)[0] == c && ([c] + s)[1..] == s;
  }

  lemma {:induction false} SplitConcat(a: string, b: string)
    ensures Split(a + "/" + b) == Split(a) + Split(b)
  {
    hide Split;
    if a == [] {
      assert a + "/" + b == ['/'] + b;
      SplitStep('/', b);
      SplitEmpty();
    } else {
      var c, s := a[0], a[1..];
      var rest := Split(s);
      SplitConcat(s, b);
      assert a + "/" + b == [c] + (s + "/" + b) && a == [c] + s;
      SplitStep(c, s + "/" + b);
      SplitStep(c, s);
      assert (rest + Split(b))[0] == rest[0] && (rest + Split(b))[1..] == rest[1..] + Split(b);
    }
  }

  lemma {:induction false} SplitEmpty()
    ensures Split("") == [""]
  {}

  /** A key is valid exactly when it is a normalized relative path with no reserved segment. */
  lemma {:induction false} ValidKeys(key: string)
    ensures ValidateFsmKey(key).Success? <==>
              '\0' !in key && forall x :: x in Split(key) ==> x !in ["", ".", "..", "rpc"]
    ensures ValidateFsmKey(key).Success? ==> ValidateFsmKey(key).value == key
  {
    FirstReservedFinds(Split(key));
    SplitEmpty();
    hide Split, FirstReserved;
    assert forall x: string :: x in ["", ".", "..", "rpc"] <==> x == "" || Reserved(x);
    assert key == "" ==> "" in Split(key);
  }

  lemma {:induction false} FirstReservedIs(segments: seq<string>, at: nat)
    requires at < |segments| && Reserved(segments[at]) && forall i :: 0 <= i < at ==> !Reserved(segments[i])
    ensures FirstReserved(segments) == Some(segments[at])
  {
    if at > 0 {
      FirstReservedIs(segments[1..], at - 1);
    }
  }

  /** Which complaint a key draws: being empty, holding NUL, an empty segment, or the first reserved segment. */
  lemma {:induction false} KeyComplaints(key: string, at: nat)
    ensures key == "" ==> ValidateFsmKey(key) == Failure(EmptyKey)
    ensures key != "" && '\0' in key ==> ValidateFsmKey(key) == Failure(NulInKey)
    ensures key != "" && '\0' !in key && "" in Split(key) ==> ValidateFsmKey(key) == Failure(EmptySegment)
    ensures key != "" && '\0' !in key && "" !in Split(key) && at < |Split(key)|
            && Split(key)[at] in {".", "..", "rpc"}
            && (forall i :: 0 <= i < at ==> Split(key)[i] !in {".", "..", "rpc"}) ==>
              ValidateFsmKey(key) == Failure(ReservedSegment(Split(key)[at]))
  {
    hide Split;
    var segments := Split(key);
    assert forall i :: 0 <= i < |segments| ==> (Reserved(segments[i]) <==> segments[i] in {".", "..", "rpc"});
    if at < |segments| && Reserved(segments[at]) && forall i :: 0 <= i < at ==> !Reserved(segments[i]) {
      FirstReservedIs(segments, at);
    }
  }

  lemma {:induction false} RpcHasSegment(k: string, tail: string)
    ensures "rpc" in Split(k + "/rpc")
    ensures "rpc" in Split(k + "/rpc/" + tail)
  {
    hide Split;
    assert Split("rpc") == ["rpc"] by {
      SplitEmpty();
      SplitStep('c', "");
      assert ['c'] + "" == "c";
      SplitStep('p', "c");
      assert ['p'] + "c" == "pc";
      SplitStep('r', "pc");
      assert ['r'] + "pc" == "rpc";
    }
    SplitConcat(k, "rpc");
    assert k + "/rpc" == k + "/" + "rpc";
    SplitConcat(k + "/rpc", tail);
    assert k + "/rpc/" + tail == k + "/rpc" + "/" + tail;
    var all := Split(k) + ["rpc"];
    assert all[|all| - 1] == "rpc";
  }

  /** No valid key is the command slot of another, or lies below it. */
  lemma {:induction false} SlotIsNoKey(j: string, k: string)
    requires ValidateFsmKey(j).Success?
    ensures j != k + "/rpc"
    ensures !(k + "/rpc/" <= j)
  {
    hide Split;
    ValidKeys(j);
    var tail := if k + "/rpc/" <= j then j[|k + "/rpc/"|..] else "";
    RpcHasSegment(k, tail);
    assert k + "/rpc/" <= j ==> j == k + "/rpc/" + tail;
  }

  // ----- As stored: UTF-8 (RFC 3629, section 3) -----

  function EncodeChar(c: char): Bytes {
    var n := c as int;
    if n < 0x80 then [n]
    else if n < 0x800 then [0xC0 + n / 0x40, 0x80 + n % 0x40]
    else if n < 0x10000 then [0xE0 + n / 0x1000, 0x80 + n / 0x40 % 0x40, 0x80 + n % 0x40]
    else [0xF0 + n / 0x40000, 0x80 + n / 0x1000 % 0x40, 0x80 + n / 0x40 % 0x40, 0x80 + n % 0x40]
  }

  function Encode(s: string): Bytes {
    if s == [] then [] else EncodeChar(s[0]) + Encode(s[1..])
  }

  /** The code point that the octets of one character stand for. */
  function Decoded(octets: seq<int>): int {
    if |octets| == 1 then octets[0]
    else if |octets| == 2 then (octets[0] - 0xC0) * 0x40 + (octets[1] - 0x80)
    else if |octets| == 3 then (octets[0] - 0xE0) * 0x1000 + (octets[1] - 0x80) * 0x40 + (octets[2] - 0x80)
    else if |octets| == 4 then
      (octets[0] - 0xF0) * 0x40000 + (octets[1] - 0x80) * 0x1000 + (octets[2] - 0x80) * 0x40 + (octets[3] - 0x80)
    else -1
  }

  /** A character is encoded in the shortest form, and every octet after the first is a continuation. */
  lemma {:induction false} EncodedReadsBack(c: char)
    ensures Decoded(EncodeChar(c)) == c as int
    ensures |EncodeChar(c)| == (if c as int < 0x80 then 1 else if c as int < 0x800 then 2
                                else if c as int < 0x10000 then 3 else 4)
    ensures forall i :: 0 < i < |EncodeChar(c)| ==> 0x80 <= EncodeChar(c)[i] < 0xC0
  {
    NestedDigits(c as int);
  }

  /** Whatever follows, the first bytes tell which character comes first. */
  lemma {:induction false} FirstCharacter(c: char, x: Bytes, d: char, y: Bytes)
    requires EncodeChar(c) + x <= EncodeChar(d) + y
    ensures c == d && x <= y
  {
    var u, v := EncodeChar(c), EncodeChar(d);
    assert (u + x)[0] == u[0] && (v + y)[0] == v[0];
    assert (v + y)[..|u + x|] == u + x;
    assert u[0] == v[0];
    assert |u| == |v|;
    assert forall i :: 0 <= i < |u| ==> u[i] == (u + x)[i] == (v + y)[i] == v[i];
    SameCharacter(c, d);
    assert (v + y)[|u|..] == y && (u + x)[|u|..] == x;
    assert y[..|x|] == (v + y)[|u|..|u| + |x|];
  }

  lemma {:induction false} SameDigits(n: nat, m: nat)
    requires n / 0x40 == m / 0x40 && n % 0x40 == m % 0x40
    ensures n == m
  {}

  lemma {:induction false} NestedDigits(n: nat)
    ensures n / 0x40 / 0x40 == n / 0x1000 && n / 0x1000 / 0x40 == n / 0x40000
  {}

  lemma {:induction false} SameCharacter(c: char, d: char)
    requires EncodeChar(c) == EncodeChar(d)
    ensures c == d
  {
    var n, m := c as int, d as int;
    var u, v := EncodeChar(c), EncodeChar(d);
    assert u[0] == v[0] && u[|u| - 1] == v[|u| - 1];
    if n >= 0x80 {
      assert n % 0x40 == m % 0x40;
      if n >= 0x800 {
        assert u[|u| - 2] == v[|u| - 2];
        NestedDigits(n);
        NestedDigits(m);
        if n >= 0x10000 {
          assert u[1] == v[1];
          SameDigits(n / 0x1000, m / 0x1000);
        }
        SameDigits(n / 0x40, m / 0x40);
      }
      SameDigits(n, m);
    }
  }

  /** An encoded string is a prefix of another only where the strings themselves are. */
  lemma {:induction false} EncodePrefix(p: string, s: string)
    ensures Encode(p) <= Encode(s) <==> p <= s
  {
    hide EncodeChar;
    if p != [] && s != [] {
      EncodePrefix(p[1..], s[1..]);
      assert p == [p[0]] + p[1..] && s == [s[0]] + s[1..];
      if Encode(p) <= Encode(s) {
        FirstCharacter(p[0], Encode(p[1..]), s[0], Encode(s[1..]));
      }
      if p <= s {
        assert p[0] == s[0];
        assert p[1..] <= s[1..] by { assert s[1..][..|p| - 1] == s[..|p|][1..]; }
      }
    } else if p != [] {
      EncodedLength(p[0]);
    }
  }

  lemma {:induction false} EncodedLength(c: char)
    ensures 1 <= |EncodeChar(c)| <= 4
  {}

  /** On the stored bytes: an object's key is outside the whole subtree of every command slot. */
  lemma {:induction false} KeysStayApart(j: string, k: string)
    requires ValidateFsmKey(j).Success?
    ensures Encode(j) != Encode(k + "/rpc")
    ensures !KeyInRange(Encode(j), Encode(k + "/rpc/"), Some(PrefixEnd(Encode(k + "/rpc/"))))
  {
    hide Encode, ValidateFsmKey;
    SlotIsNoKey(j, k);
    EncodePrefix(k + "/rpc", j);
    EncodePrefix(j, k + "/rpc");
    EncodePrefix(k + "/rpc/", j);
    PrefixSpanExact(Encode(k + "/rpc/"), Encode(j));
  }
}
