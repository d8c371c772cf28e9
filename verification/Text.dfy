/** How the programs read text: fgets hands out pieces of lines, strtok_r splits a piece into tokens. */
module Text {

  /** Length of what fgets delivers: up to `room` characters, through the newline. */
  function ChunkLength(s: string, room: nat): (n: nat)
    ensures n <= |s| && n <= room && (s != [] && room > 0 ==> n > 0)
    ensures forall i :: 0 <= i < n - 1 ==> s[i] != '\n'
    ensures n < |s| && n < room ==> n > 0 && s[n - 1] == '\n'
  {
    if s == [] || room == 0 then 0
    else if s[0] == '\n' then 1
    else
      var n := ChunkLength(s[1..], room - 1);
      assert forall i :: 1 <= i < n ==> s[i] == s[1..][i - 1];
      n + 1
  }

  function Chunks(s: string, room: nat): seq<string>
    requires room > 0
    decreases |s|
  {
    if s == [] then []
    else [s[..ChunkLength(s, room)]] + Chunks(s[ChunkLength(s, room)..], room)
  }

  predicate Separator(c: char) {
    c == ' ' || c == '\t' || c == '\n'
  }

  function TokenLength(s: string): (n: nat)
    ensures n <= |s| && (s != [] && !Separator(s[0]) ==> n > 0)
  {
    if s == [] || Separator(s[0]) then 0 else 1 + TokenLength(s[1..])
  }

  /** The tokens strtok_r yields. */
  function Tokens(s: string): seq<string>
    decreases |s|
  {
    if s == [] then []
    else if Separator(s[0]) then Tokens(s[1..])
    else [s[..TokenLength(s)]] + Tokens(s[TokenLength(s)..])
  }

  lemma {:induction false} TokenLengthOfSum(a: string, b: string)
    ensures TokenLength(a + b) == if TokenLength(a) < |a| then TokenLength(a) else |a| + TokenLength(b)
  {
    if a == [] {
      assert a + b == b;
    } else if !Separator(a[0]) {
      assert (a + b)[0] == a[0] && (a + b)[1..] == a[1..] + b;
      TokenLengthOfSum(a[1..], b);
    }
  }

  /** A token goes on from the end of the one text into the other. */
  predicate Joins(a: string, b: string) {
    a != [] && b != [] && !Separator(a[|a| - 1]) && !Separator(b[0])
  }

  lemma LastTokenOfSum(a: string, b: string)
    requires a != [] && TokenLength(a) == |a|
    ensures Tokens(a) == [a] && !Separator(a[|a| - 1])
    ensures if Joins(a, b) then |Tokens(a + b)| == |Tokens(b)| else Tokens(a + b) == [a] + Tokens(b)
  {
    NoSeparatorWithin(a);
    TokenLengthOfSum(a, b);
    assert a[..|a|] == a && a[|a|..] == [] && (a + b)[0] == a[0];
    var m := TokenLength(b);
    assert (a + b)[|a| + m..] == b[m..];
    if m == 0 {
      assert (a + b)[..|a|] == a && b[0..] == b;
    }
  }

  lemma {:induction false} NoSeparatorWithin(a: string)
    requires TokenLength(a) == |a|
    ensures forall i :: 0 <= i < |a| ==> !Separator(a[i])
  {
    if a != [] {
      NoSeparatorWithin(a[1..]);
      assert forall i :: 0 < i < |a| ==> a[i] == a[1..][i - 1];
    }
  }

  /** The tokens of a text in two parts are those of the parts, or one less where a token is cut. */
  lemma {:induction false} TokensOfParts(a: string, b: string)
    ensures if Joins(a, b) then |Tokens(a + b)| + 1 == |Tokens(a)| + |Tokens(b)|
            else Tokens(a + b) == Tokens(a) + Tokens(b)
    decreases |a|
  {
    if a == [] {
      assert a + b == b;
    } else if Separator(a[0]) {
      assert (a + b)[0] == a[0] && (a + b)[1..] == a[1..] + b;
      TokensOfParts(a[1..], b);
    } else if TokenLength(a) == |a| {
      LastTokenOfSum(a, b);
    } else {
      TokenLengthOfSum(a, b);
      var n := TokenLength(a);
      assert (a + b)[0] == a[0] && (a + b)[n..] == a[n..] + b && (a + b)[..n] == a[..n];
      TokensOfParts(a[n..], b);
    }
  }

  /** How many of the pieces end inside a token. */
  function Cuts(s: string, room: nat): nat
    requires room > 0
    decreases |s|
  {
    if s == [] then 0
    else
      var n := ChunkLength(s, room);
      (if Joins(s[..n], s[n..]) then 1 else 0) + Cuts(s[n..], room)
  }

  predicate NewlineWithin(s: string, i: nat, room: nat) {
    exists j :: i <= j < i + room && j < |s| && s[j] == '\n'
  }

  /** Any `room` characters that are not the end of the file have a newline among them. */
  ghost predicate ShortLines(s: string, room: nat) {
    forall i: nat :: i + room < |s| ==> NewlineWithin(s, i, room)
  }

  lemma ShortLinesBehind(s: string, room: nat, n: nat)
    requires ShortLines(s, room) && n <= |s|
    ensures ShortLines(s[n..], room)
  {
    forall i: nat | i + room < |s[n..]|
      ensures NewlineWithin(s[n..], i, room)
    {
      assert NewlineWithin(s, n + i, room);
      var j :| n + i <= j < n + i + room && j < |s| && s[j] == '\n';
      assert s[n..][j - n] == '\n';
    }
  }

  lemma ChunkEndsInNewline(s: string, room: nat)
    requires ShortLines(s, room) && 0 < room && ChunkLength(s, room) < |s|
    ensures s[ChunkLength(s, room) - 1] == '\n'
  {
    assert ChunkLength(s, room) == room ==> NewlineWithin(s, 0, room);
  }
}
