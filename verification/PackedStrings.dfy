/**
 The packed form of a list of texts: each with its length and a colon in front.

 What a packed text means is said first, with lengths that are numbers.  The decoder of the program
 reads a length as C's `strtoul` does and stores it in 32 bits, so that it may be negative and take the
 decoder back.  Its turns are modelled as they are: it is proved when they come to an end, that they do
 and give the meaning wherever lengths are plain digits below 2^31, and that one text of digits keeps
 the decoder busy for ever.
 */
module PackedStrings {
  import opened Paths
  import opened Decimal
  import opened Words

  function Pack(strings: seq<string>): string {
    if strings == [] then "" else Print(|strings[0]|) + ":" + strings[0] + Pack(strings[1..])
  }

  /** Packing a concatenation concatenates what is packed. */
  lemma {:induction false} PackConcat(a: seq<string>, b: seq<string>)
    ensures Pack(a + b) == Pack(a) + Pack(b)
  {
    if a == [] {
      assert a + b == b;
    } else {
      PackConcat(a[1..], b);
      assert (a + b)[1..] == a[1..] + b;
      Regroup(Print(|a[0]|) + ":" + a[0], Pack(a[1..]), Pack(b));
    }
  }

  lemma Regroup(a: string, b: string, c: string)
    ensures a + (b + c) == a + b + c
  {
  }

  method PackStrings(strings: seq<string>) returns (output: string)
    ensures output == Pack(strings)
  {
    output := "";
    for i := 0 to |strings|
      invariant output == Pack(strings[..i])
    {
      assert strings[..i + 1] == strings[..i] + [strings[i]];
      PackConcat(strings[..i], [strings[i]]);
      PackOne(strings[i]);
      output := output + (Print(|strings[i]|) + ":" + strings[i]);
    }
    assert strings[..|strings|] == strings;
  }

  lemma PackOne(s: string)
    ensures Pack([s]) == Print(|s|) + ":" + s
  {
    hide *;
    PackIs([s]);
    PackIs([s][1..]);
    assert Print(|s|) + ":" + s + "" == Print(|s|) + ":" + s;
  }

  /** The first colon from `start` on, if there is one. */
  function ColonFrom(s: string, start: nat): (r: Option<nat>)
    requires start <= |s|
    ensures r.Some? ==> start <= r.value < |s| && s[r.value] == ':' && forall i :: start <= i < r.value ==> s[i] != ':'
    ensures r.None? ==> forall i :: start <= i < |s| ==> s[i] != ':'
    decreases |s| - start
  {
    if start == |s| then None
    else if s[start] == ':' then Some(start)
    else ColonFrom(s, start + 1)
  }

  /** One packed text that begins at `position`: where its content begins and ends. */
  function Field(s: string, position: nat): (r: Option<(nat, nat)>)
    requires position < |s|
    ensures r.Some? ==> position < r.value.0 <= r.value.1 <= |s|
  {
    var colon := ColonFrom(s, position);
    if colon.None? then None
    else
      var digits := s[position..colon.value];
      if digits == "" || !AllDigits(digits) then None
      else if colon.value + 1 + Read(digits) > |s| then None
      else Some((colon.value + 1, colon.value + 1 + Read(digits)))
  }

  function UnpackFrom(s: string, position: nat): Option<seq<string>>
    requires position <= |s|
    decreases |s| - position
  {
    if position == |s| then Some([])
    else
      var field := Field(s, position);
      if field.None? then None
      else
        var rest := UnpackFrom(s, field.value.1);
        if rest.None? then None else Some([s[field.value.0..field.value.1]] + rest.value)
  }

  function Unpack(s: string): Option<seq<string>> {
    UnpackFrom(s, 0)
  }

  /** A packed text is read back where it begins. */
  lemma FieldOfPacked(before: string, x: string, rest: string)
    ensures var s := before + (Print(|x|) + ":" + x + rest);
            var content := |before| + |Print(|x|)| + 1;
            && |before| < |s| && content + |x| <= |s|
            && Field(s, |before|) == Some((content, content + |x|))
            && s[content..content + |x|] == x
            && |before + (Print(|x|) + ":" + x)| == content + |x|
            && s == before + (Print(|x|) + ":" + x) + rest
  {
    hide *;
    var digits := Print(|x|);
    var colon := |before| + |digits|;
    Slices(before, digits, x, rest);
    var s := before + (digits + ":" + x + rest);
    ReadPrint(|x|);
    DigitsHoldNoColon(s, |before|, colon);
    FoundColon(s, |before|, colon);
    FieldIs(s, |before|, colon, digits);
  }

  lemma Slices(before: string, digits: string, x: string, rest: string)
    ensures var s := before + (digits + ":" + x + rest);
            var colon := |before| + |digits|;
            && |before| <= colon < |s| && colon + 1 + |x| <= |s|
            && s[|before|..colon] == digits && s[colon] == ':'
            && s[colon + 1..colon + 1 + |x|] == x
            && |before + (digits + ":" + x)| == colon + 1 + |x|
            && s == before + (digits + ":" + x) + rest
  {
  }

  lemma DigitsHoldNoColon(s: string, start: nat, end: nat)
    requires start <= end <= |s| && AllDigits(s[start..end])
    ensures forall i :: start <= i < end ==> s[i] != ':'
  {
    forall i | start <= i < end ensures s[i] != ':' {
      assert IsDigit(s[start..end][i - start]);
    }
  }

  lemma FieldIs(s: string, position: nat, colon: nat, digits: string)
    requires position < |s| && ColonFrom(s, position) == Some(colon) && position <= colon < |s|
    requires s[position..colon] == digits && digits != "" && AllDigits(digits)
    ensures Field(s, position) == if colon + 1 + Read(digits) > |s| then None else Some((colon + 1, colon + 1 + Read(digits)))
  {
  }

  lemma {:induction false} UnpackPacked(before: string, strings: seq<string>)
    ensures UnpackFrom(before + Pack(strings), |before|) == Some(strings)
    decreases |strings|
  {
    hide Field, Pack, Print;
    PackIs(strings);
    if strings == [] {
      assert before + "" == before;
    } else {
      var x, rest := strings[0], Pack(strings[1..]);
      FieldOfPacked(before, x, rest);
      UnpackPacked(before + (Print(|x|) + ":" + x), strings[1..]);
      assert [x] + strings[1..] == strings;
    }
  }

  lemma PackIs(strings: seq<string>)
    ensures strings == [] ==> Pack(strings) == ""
    ensures strings != [] ==> Pack(strings) == Print(|strings[0]|) + ":" + strings[0] + Pack(strings[1..])
  {
  }

  /** Unpacking undoes packing, whatever the texts hold. */
  lemma UnpackPack(strings: seq<string>)
    ensures Unpack(Pack(strings)) == Some(strings)
  {
    UnpackPacked("", strings);
    assert "" + Pack(strings) == Pack(strings);
  }

  /** So different lists are packed differently. */
  lemma PackInjective(a: seq<string>, b: seq<string>)
    ensures Pack(a) == Pack(b) <==> a == b
  {
    UnpackPack(a);
    UnpackPack(b);
  }

  // ---------------------------------------------------------------- lengths as the program reads them

  /** What an `unsigned long` of 64 bits cannot hold. */
  const ULONG_LIMIT: nat := 0x1_0000_0000_0000_0000

  predicate IsSpace(c: char) {
    c == ' ' || 9 <= c as int <= 13
  }

  function WithoutSpaces(t: string): string {
    if t != "" && IsSpace(t[0]) then WithoutSpaces(t[1..]) else t
  }

  function LeadingDigits(t: string): (d: string)
    ensures AllDigits(d)
  {
    if t != "" && IsDigit(t[0]) then [t[0]] + LeadingDigits(t[1..]) else ""
  }

  /** The number that `strtoul` takes off the front of `t`, stored in an `int`; what follows is ignored. */
  function LengthOf(t: string): Option<int> {
    var u := WithoutSpaces(t);
    var signed := u != "" && (u[0] == '-' || u[0] == '+');
    var digits := LeadingDigits(if signed then u[1..] else u);
    if digits == "" then None
    else
      var n := Read(digits);
      Some(AsInt(if n >= ULONG_LIMIT then ULONG_LIMIT - 1 else if signed && u[0] == '-' then (ULONG_LIMIT - n) % ULONG_LIMIT else n))
  }

  /** A plain length is read as it is. */
  lemma PlainLength(t: string)
    requires t != "" && AllDigits(t) && Read(t) < INT_LIMIT
    ensures LengthOf(t) == Some(Read(t))
  {
    assert IsDigit(t[0]);
    AllLeading(t);
  }

  lemma {:induction false} AllLeading(t: string)
    requires AllDigits(t)
    ensures LeadingDigits(t) == t
  {
    if t != "" {
      assert IsDigit(t[0]) && forall i :: 0 <= i < |t| - 1 ==> t[1..][i] == t[i + 1];
      AllLeading(t[1..]);
    }
  }

  /** A length may have spaces and a sign in front, and anything but a digit behind. */
  lemma LengthMeans(spaces: string, sign: string, digits: string, rest: string)
    requires forall i :: 0 <= i < |spaces| ==> spaces[i] == ' ' || 9 <= spaces[i] as int <= 13
    requires sign == "" || sign == "+" || sign == "-"
    requires digits != "" && AllDigits(digits) && Read(digits) < ULONG_LIMIT && (rest == "" || !IsDigit(rest[0]))
    ensures LengthOf(spaces + (sign + (digits + rest))) ==
              Some(AsInt(if sign == "-" && Read(digits) > 0 then ULONG_LIMIT - Read(digits) else Read(digits)))
  {
    var body := digits + rest;
    var u := sign + body;
    assert IsDigit(digits[0]) && body[0] == digits[0];
    assert u != "" && u[0] == if sign == "" then digits[0] else sign[0];
    assert !IsSpace(u[0]) && (forall i :: 0 <= i < |spaces| ==> IsSpace(spaces[i]));
    assert digits[0] != '-' && digits[0] != '+';
    hide *;
    SpacesGo(spaces, u);
    LeadingGo(digits, rest);
    if sign == "" {
      assert u == body;
    } else {
      assert u[1..] == body;
    }
    LengthIs(spaces + u, u, sign != "", digits);
  }

  lemma LengthIs(t: string, u: string, signed: bool, digits: string)
    requires u == WithoutSpaces(t) && u != "" && (signed <==> u[0] == '-' || u[0] == '+')
    requires digits != "" && AllDigits(digits) && digits == LeadingDigits(if signed then u[1..] else u) && Read(digits) < ULONG_LIMIT
    ensures LengthOf(t) == Some(AsInt(if u[0] == '-' && Read(digits) > 0 then ULONG_LIMIT - Read(digits) else Read(digits)))
  {
    var n := Read(digits);
    assert n > 0 ==> (ULONG_LIMIT - n) % ULONG_LIMIT == ULONG_LIMIT - n;
    hide Read, LeadingDigits, WithoutSpaces, AllDigits;
  }

  lemma {:induction false} SpacesGo(spaces: string, u: string)
    requires forall i :: 0 <= i < |spaces| ==> IsSpace(spaces[i])
    requires u != "" && !IsSpace(u[0])
    ensures WithoutSpaces(spaces + u) == u
  {
    if spaces == "" {
      assert spaces + u == u;
    } else {
      assert (spaces + u)[1..] == spaces[1..] + u;
      SpacesGo(spaces[1..], u);
    }
  }

  lemma {:induction false} LeadingGo(digits: string, rest: string)
    requires AllDigits(digits) && (rest == "" || !IsDigit(rest[0]))
    ensures LeadingDigits(digits + rest) == digits
  {
    if digits == "" {
      assert digits + rest == rest;
    } else {
      assert IsDigit(digits[0]);
      assert (digits + rest)[1..] == digits[1..] + rest;
      assert forall i :: 0 <= i < |digits| - 1 ==> digits[1..][i] == digits[i + 1];
      LeadingGo(digits[1..], rest);
    }
  }

  // ---------------------------------------------------------------- the turns of the decoder

  datatype Turn = End(ok: bool) | Next(content: string, position: int)

  /** One turn of the loop.  A negative length makes the content all that is left, and a negative
      position finds no colon. */
  function TurnAt(s: string, position: int): Turn {
    if position >= |s| then End(true)
    else if position < 0 then End(false)
    else
      var colon := ColonFrom(s, position);
      if colon.None? then End(false)
      else
        var length := LengthOf(s[position..colon.value]);
        if length.None? then End(false)
        else if colon.value + 1 + length.value > |s| then End(false)
        else
          Next(if length.value < 0 then s[colon.value + 1..] else s[colon.value + 1..colon.value + 1 + length.value],
               colon.value + 1 + length.value)
  }

  /** A turn, by the parts of the text: a length, a colon, and what is behind.  A negative length takes all of
      that, and the decoder back. */
  lemma TurnMeans(before: string, length: string, rest: string)
    requires ':' !in length && LengthOf(length).Some?
    ensures var s, n := before + (length + ":" + rest), LengthOf(length).value;
            var next := |before| + |length| + 1 + n;
            TurnAt(s, |before|) ==
            if n > |rest| then End(false) else if n < 0 then Next(rest, next) else Next(rest[..n], next)
  {
    hide *;
    var s, colon := before + (length + ":" + rest), |before| + |length|;
    PartsOf(before, length, rest);
    forall i | |before| <= i < colon ensures s[i] != ':' {
      assert s[|before|..colon][i - |before|] == length[i - |before|];
    }
    FoundColon(s, |before|, colon);
    TurnIs(s, |before|, colon);
  }

  lemma PartsOf(before: string, length: string, rest: string)
    ensures var s, colon := before + (length + ":" + rest), |before| + |length|;
            && colon < |s| == colon + 1 + |rest|
            && s[|before|..colon] == length && s[colon] == ':' && s[colon + 1..] == rest
            && forall n: nat :: n <= |rest| ==> s[colon + 1..colon + 1 + n] == rest[..n]
  {
  }

  lemma TurnIs(s: string, position: nat, colon: nat)
    requires position <= colon < |s| && ColonFrom(s, position) == Some(colon) && LengthOf(s[position..colon]).Some?
    ensures var n := LengthOf(s[position..colon]).value;
            TurnAt(s, position) ==
            if colon + 1 + n > |s| then End(false)
            else Next(if n < 0 then s[colon + 1..] else s[colon + 1..colon + 1 + n], colon + 1 + n)
  {
  }

  datatype Progress = Reading(position: int, output: seq<string>) | Done(ok: bool, output: seq<string>)

  function Turned(s: string, p: Progress): Progress {
    match p
    case Done(_, _) => p
    case Reading(position, output) =>
      match TurnAt(s, position)
      case End(ok) => Done(ok, output)
      case Next(content, next) => Reading(next, output + [content])
  }

  /** Where the decoder is after `n` turns. */
  function After(s: string, n: nat): Progress {
    if n == 0 then Reading(0, []) else Turned(s, After(s, n - 1))
  }

  ghost predicate Halts(s: string) {
    exists n: nat :: After(s, n).Done?
  }

  /** Reads a packed text, if reading it comes to an end. */
  method UnpackStrings(input: string) returns (ok: bool, output: seq<string>)
    requires Halts(input)
    ensures forall n: nat :: After(input, n).Done? ==> After(input, n) == Done(ok, output)
  {
    hide After, Turned;
    output := [];
    var position := 0;
    ghost var end: nat :| After(input, end).Done?;
    ghost var i: nat := 0;
    AfterFirst(input);
    while position < |input|
      invariant i <= end && After(input, i) == Reading(position, output)
      decreases end - i
    {
      AfterNext(input, i);
      OnlyOneEnd(input, i + 1);
      StillGoing(input, i, end);
      i := i + 1;
      if position < 0 {
        return false, output;
      }
      var colon := Find(input, ':', position);
      FoundColon(input, position, colon);
      if colon == |input| {
        return false, output;
      }
      var length := LengthOf(input[position..colon]);
      if length.None? {
        return false, output;
      }
      if colon + 1 + length.value > |input| {
        return false, output;
      }
      var content := if length.value < 0 then input[colon + 1..] else input[colon + 1..colon + 1 + length.value];
      output := output + [content];
      position := colon + 1 + length.value;
    }
    AfterNext(input, i);
    OnlyOneEnd(input, i + 1);
    ok := true;
  }

  lemma AfterFirst(s: string)
    ensures After(s, 0) == Reading(0, [])
  {
  }

  lemma AfterNext(s: string, n: nat)
    ensures After(s, n).Done? ==> After(s, n + 1) == After(s, n)
    ensures After(s, n).Reading? ==>
              After(s, n + 1) ==
              match TurnAt(s, After(s, n).position)
              case End(ok) => Done(ok, After(s, n).output)
              case Next(content, next) => Reading(next, After(s, n).output + [content])
  {
  }

  /** Once the decoder is done it stays so. */
  lemma {:induction false} StaysDone(s: string, n: nat, m: nat)
    requires After(s, n).Done? && n <= m
    ensures After(s, m) == After(s, n)
    decreases m
  {
    if n < m {
      StaysDone(s, n, m - 1);
    }
  }

  lemma OnlyOneEnd(s: string, n: nat)
    ensures After(s, n).Done? ==> forall m: nat :: After(s, m).Done? ==> After(s, m) == After(s, n)
  {
    forall m: nat | After(s, n).Done? && After(s, m).Done? ensures After(s, m) == After(s, n) {
      StaysDone(s, if n <= m then n else m, if n <= m then m else n);
    }
  }

  lemma StillGoing(s: string, i: nat, end: nat)
    requires After(s, i).Reading? && After(s, end).Done? && i <= end
    ensures i < end
  {
  }

  // ---------------------------------------------------------------- when the turns come to an end

  /** The decoder comes to the same position twice. */
  ghost predicate Returns(s: string, i: nat, j: nat) {
    i < j && After(s, i).Reading? && After(s, j).Reading? && After(s, i).position == After(s, j).position
  }

  /** What the decoder does next depends on its position only. */
  lemma {:induction false} GoesRound(s: string, i: nat, j: nat, k: nat)
    requires Returns(s, i, j)
    ensures After(s, i + k).Reading? <==> After(s, j + k).Reading?
    ensures After(s, i + k).Reading? ==> After(s, i + k).position == After(s, j + k).position
    decreases k
  {
    hide *;
    ReturnsIs(s, i, j);
    if k > 0 {
      GoesRound(s, i, j, k - 1);
      AfterNext(s, i + (k - 1));
      AfterNext(s, j + (k - 1));
    }
  }

  /** So a return goes on for ever. */
  lemma {:induction false} NeverDone(s: string, i: nat, j: nat, n: nat)
    requires Returns(s, i, j)
    ensures After(s, n).Reading?
    decreases n
  {
    hide *;
    ReturnsIs(s, i, j);
    if n < j {
      if After(s, n).Done? {
        StaysDone(s, n, j);
      }
    } else {
      NeverDone(s, i, j, n - (j - i));
      GoesRound(s, i, j, n - j);
    }
  }

  lemma ReturnsIs(s: string, i: nat, j: nat)
    requires Returns(s, i, j)
    ensures i < j && After(s, j).Reading? && After(s, i).Reading? && After(s, i).position == After(s, j).position
  {
  }

  /** The positions inside a text of `n` characters. */
  ghost function Positions(n: nat): (r: set<int>)
    ensures |r| == n && forall p :: p in r <==> 0 <= p < n
  {
    if n == 0 then {} else Positions(n - 1) + {n - 1}
  }

  /** While it reads on, the decoder has been at positions inside the text. */
  lemma {:induction false} ReadsInside(s: string, n: nat)
    requires After(s, n + 1).Reading?
    ensures After(s, n).Reading? && After(s, n).position in Positions(|s|)
  {
    AfterNext(s, n);
  }

  ghost predicate WasAt(s: string, n: nat, p: int) {
    exists i: nat :: i < n && After(s, i).Reading? && After(s, i).position == p
  }

  lemma WasAtNext(s: string, n: nat)
    requires After(s, n).Reading?
    ensures forall p :: WasAt(s, n + 1, p) <==> WasAt(s, n, p) || p == After(s, n).position
    ensures WasAt(s, n, After(s, n).position) ==> exists i :: Returns(s, i, n)
  {
    hide After;
    assert WasAt(s, n + 1, After(s, n).position);
    forall p | WasAt(s, n, p) ensures WasAt(s, n + 1, p) {
      var i: nat :| i < n && After(s, i).Reading? && After(s, i).position == p;
      assert i < n + 1;
    }
    if WasAt(s, n, After(s, n).position) {
      var i: nat :| i < n && After(s, i).Reading? && After(s, i).position == After(s, n).position;
      assert Returns(s, i, n);
    }
  }

  /** As many turns without a return have been at as many positions. */
  lemma {:induction false} Visits(s: string, n: nat) returns (visited: set<int>)
    requires After(s, n).Reading? && forall i, j :: !Returns(s, i, j)
    ensures visited <= Positions(|s|) && |visited| == n && forall p :: p in visited ==> WasAt(s, n, p)
    decreases n
  {
    hide *;
    if n == 0 {
      visited := {};
    } else {
      ReadsInside(s, n - 1);
      WasAtNext(s, n - 1);
      var before := Visits(s, n - 1);
      visited := before + {After(s, n - 1).position};
    }
  }

  /** Reading comes to an end exactly if it never comes to a position twice, and then in no more turns
      than the text has characters, and one. */
  lemma HaltsIff(s: string)
    ensures Halts(s) <==> forall i, j :: !Returns(s, i, j)
    ensures Halts(s) <==> After(s, |s| + 1).Done?
  {
    if forall i, j :: !Returns(s, i, j) {
      if After(s, |s| + 1).Reading? {
        var visited := Visits(s, |s| + 1);
        Smaller(visited, Positions(|s|));
      }
    } else {
      var i, j :| Returns(s, i, j);
      forall n: nat ensures After(s, n).Reading? {
        NeverDone(s, i, j, n);
      }
    }
  }

  lemma Smaller(a: set<int>, b: set<int>)
    requires a <= b
    ensures |a| <= |b|
  {
    assert a + (b - a) == b;
  }

  /** Every field goes past the position it begins at, or takes the decoder out of the text. */
  ghost predicate Progresses(s: string) {
    forall n: nat :: After(s, n).Reading? && TurnAt(s, After(s, n).position).Next? ==>
      var next := TurnAt(s, After(s, n).position).position;
      next > After(s, n).position || next < 0
  }

  lemma {:induction false} GoesForward(s: string, i: nat, j: nat)
    requires Progresses(s) && i < j && After(s, j).Reading?
    ensures After(s, i).Reading? && (After(s, i).position < After(s, j).position || After(s, j).position < 0 <= After(s, i).position)
    decreases j
  {
    hide *;
    ReadsInside(s, j - 1);
    AfterNext(s, j - 1);
    ProgressesAt(s, j - 1);
    if After(s, i + 1).Done? {
      StaysDone(s, i + 1, j);
    }
    ReadsInside(s, i);
    if i < j - 1 {
      GoesForward(s, i, j - 1);
    }
  }

  lemma ProgressesAt(s: string, n: nat)
    requires Progresses(s) && After(s, n).Reading? && TurnAt(s, After(s, n).position).Next?
    ensures TurnAt(s, After(s, n).position).position > After(s, n).position || TurnAt(s, After(s, n).position).position < 0
  {
  }

  /** Where every field goes on, reading comes to an end. */
  lemma ProgressHalts(s: string)
    requires Progresses(s)
    ensures Halts(s)
  {
    HaltsIff(s);
    forall i, j ensures !Returns(s, i, j) {
      if Returns(s, i, j) {
        GoesForward(s, i, j);
      }
    }
  }

  /** A field goes on unless its length is negative, and no more so than the characters it takes itself. */
  lemma FieldGoesOn(s: string, position: nat)
    requires position < |s| && TurnAt(s, position).Next?
    ensures var colon := ColonFrom(s, position).value;
            TurnAt(s, position).position > position <==> -(LengthOf(s[position..colon]).value) <= colon - position
  {
  }

  /** A text of digits and a colon that is read for ever: its length becomes -11. */
  lemma {:induction false} ReadForEver(n: nat)
    ensures After("4294967285:", n) == Reading(0, seq(n, _ => ""))
    ensures !Halts("4294967285:")
  {
    forall m: nat ensures After("4294967285:", m) == Reading(0, seq(m, _ => "")) {
      ReadAgain(m);
    }
  }

  lemma {:induction false} ReadAgain(n: nat)
    ensures After("4294967285:", n) == Reading(0, seq(n, _ => ""))
  {
    hide *;
    if n == 0 {
      AfterFirst("4294967285:");
    } else {
      ReadAgain(n - 1);
      BackToTheStart();
      AfterNext("4294967285:", n - 1);
      assert seq(n, _ => "") == seq(n - 1, _ => "") + [""];
    }
  }

  lemma BackToTheStart()
    ensures TurnAt("4294967285:", 0) == Next("", 0)
  {
    var s := "4294967285:";
    WrappedLength();
    ColonBehind();
    hide LengthOf, ColonFrom;
    assert s[0..10] == "4294967285" && s[11..] == "";
  }

  lemma ColonBehind()
    ensures ColonFrom("4294967285:", 0) == Some(10)
  {
    var s := "4294967285:";
    assert s[10] == ':' && forall i :: 0 <= i < 10 ==> s[i] != ':';
    FoundColon(s, 0, 10);
  }

  lemma WrappedLength()
    ensures LengthOf("4294967285") == Some(-11)
  {
    var t := "4294967285";
    TenDigits();
    AllLeading(t);
    assert t != "" && t[0] == '4';
    hide Read, LeadingDigits;
    assert AsInt(4294967285) == -11;
  }

  lemma TenDigits()
    ensures AllDigits("4294967285") && Read("4294967285") == 4294967285
  {
    var t := "4294967285";
    assert AllDigits(t) && t[..0] == "" && t[..10] == t;
    DigitsAre(t);
    hide Read, AllDigits;
    ReadStart(t);
    ReadOn(t, 0);
    ReadOn(t, 1);
    ReadOn(t, 2);
    ReadOn(t, 3);
    ReadOn(t, 4);
    ReadOn(t, 5);
    ReadOn(t, 6);
    ReadOn(t, 7);
    ReadOn(t, 8);
    ReadOn(t, 9);
  }

  lemma DigitsAre(t: string)
    requires t == "4294967285"
    ensures |t| == 10 && AllDigits(t)
    ensures DigitValue(t[0]) == 4 && DigitValue(t[1]) == 2 && DigitValue(t[2]) == 9 && DigitValue(t[3]) == 4 && DigitValue(t[4]) == 9
    ensures DigitValue(t[5]) == 6 && DigitValue(t[6]) == 7 && DigitValue(t[7]) == 2 && DigitValue(t[8]) == 8 && DigitValue(t[9]) == 5
  {
  }

  lemma ReadStart(t: string)
    ensures AllDigits(t[..0]) && Read(t[..0]) == 0
  {
  }

  lemma ReadOn(t: string, k: nat)
    requires k < |t| && AllDigits(t)
    ensures AllDigits(t[..k]) && AllDigits(t[..k + 1]) && IsDigit(t[k])
    ensures Read(t[..k + 1]) == 10 * Read(t[..k]) + DigitValue(t[k])
  {
    assert t[..k + 1][..k] == t[..k];
  }

  // ---------------------------------------------------------------- the decoder finds the meaning

  /** From `position` on, the lengths are plain digits and fit, as far as the text can be read. */
  predicate PlainFrom(s: string, position: nat)
    requires position <= |s|
    decreases |s| - position
  {
    position == |s| || ColonFrom(s, position).None? ||
    var digits := s[position..ColonFrom(s, position).value];
    && digits != "" && AllDigits(digits) && Read(digits) < INT_LIMIT
    && (Field(s, position).None? || PlainFrom(s, Field(s, position).value.1))
  }

  /** A plain field is read as it is meant. */
  lemma PlainTurn(s: string, position: nat)
    requires position < |s| && PlainFrom(s, position)
    ensures TurnAt(s, position) ==
            if Field(s, position).None? then End(false)
            else Next(s[Field(s, position).value.0..Field(s, position).value.1], Field(s, position).value.1)
    ensures Field(s, position).Some? ==> PlainFrom(s, Field(s, position).value.1)
  {
    var colon := ColonFrom(s, position);
    if colon.Some? {
      PlainLength(s[position..colon.value]);
    }
  }

  lemma {:induction false} PlainRead(s: string, n: nat, position: nat, output: seq<string>) returns (m: nat)
    requires position <= |s| && PlainFrom(s, position) && After(s, n) == Reading(position, output)
    ensures var rest := UnpackFrom(s, position);
            && After(s, m).Done? && (After(s, m).ok <==> rest.Some?)
            && (rest.Some? ==> After(s, m).output == output + rest.value)
    decreases |s| - position
  {
    hide *;
    AfterNext(s, n);
    UnpackFromIs(s, position);
    m := n + 1;
    if position == |s| {
      EndIsEnd(s);
      assert output + [] == output;
    } else {
      PlainTurn(s, position);
      var field := Field(s, position);
      if field.Some? {
        var x := s[field.value.0..field.value.1];
        var next := field.value.1;
        m := PlainRead(s, n + 1, next, output + [x]);
        var rest := UnpackFrom(s, next);
        assert rest.Some? ==> output + ([x] + rest.value) == output + [x] + rest.value;
      }
    }
  }

  lemma EndIsEnd(s: string)
    ensures TurnAt(s, |s|) == End(true)
  {
  }

  lemma UnpackFromIs(s: string, position: nat)
    requires position <= |s|
    ensures position == |s| ==> UnpackFrom(s, position) == Some([])
    ensures position < |s| && Field(s, position).None? ==> UnpackFrom(s, position) == None
    ensures position < |s| && Field(s, position).Some? ==>
              var rest := UnpackFrom(s, Field(s, position).value.1);
              UnpackFrom(s, position) ==
                if rest.None? then None else Some([s[Field(s, position).value.0..Field(s, position).value.1]] + rest.value)
  {
  }

  /** Where lengths are plain, reading ends, and finds what the text means, or that it means nothing. */
  lemma PlainIsRead(s: string)
    requires PlainFrom(s, 0)
    ensures Halts(s)
    ensures forall n: nat :: After(s, n).Done? ==>
              (After(s, n).ok <==> Unpack(s).Some?) && (After(s, n).ok ==> Unpack(s) == Some(After(s, n).output))
  {
    AfterFirst(s);
    var m := PlainRead(s, 0, 0, []);
    OnlyOneEnd(s, m);
    hide After;
    var rest := UnpackFrom(s, 0);
    assert rest.Some? ==> [] + rest.value == rest.value;
  }

  lemma {:induction false} PackedIsPlain(before: string, strings: seq<string>)
    requires forall i :: 0 <= i < |strings| ==> |strings[i]| < INT_LIMIT
    ensures PlainFrom(before + Pack(strings), |before|)
    decreases |strings|
  {
    hide Field, Pack, Print, Read, PlainFrom, AllDigits;
    PackIs(strings);
    if strings == [] {
      PlainAtEnd(before);
      assert before + "" == before;
    } else {
      var x, rest := strings[0], Pack(strings[1..]);
      FieldOfPacked(before, x, rest);
      LengthOfPacked(before, x, rest);
      PackedIsPlain(before + (Print(|x|) + ":" + x), strings[1..]);
      PlainNext(before + (Print(|x|) + ":" + x + rest), |before|, |before| + |Print(|x|)|);
    }
  }

  lemma PlainAtEnd(s: string)
    ensures PlainFrom(s, |s|)
  {
  }

  lemma PlainNext(s: string, position: nat, colon: nat)
    requires position < |s| && Field(s, position).Some? && PlainFrom(s, Field(s, position).value.1)
    requires position <= colon <= |s| && ColonFrom(s, position) == Some(colon)
    requires s[position..colon] != "" && AllDigits(s[position..colon]) && Read(s[position..colon]) < INT_LIMIT
    ensures PlainFrom(s, position)
  {
  }

  lemma LengthOfPacked(before: string, x: string, rest: string)
    ensures var s := before + (Print(|x|) + ":" + x + rest);
            var colon := |before| + |Print(|x|)|;
            && colon <= |s| && ColonFrom(s, |before|) == Some(colon)
            && s[|before|..colon] == Print(|x|) && Read(Print(|x|)) == |x|
            && Print(|x|) != "" && AllDigits(Print(|x|))
  {
    var digits := Print(|x|);
    var s := before + (digits + ":" + x + rest);
    var colon := |before| + |digits|;
    assert s[|before|..colon] == digits && s[colon] == ':';
    forall i | |before| <= i < colon ensures s[i] != ':' {
      assert s[i] == digits[i - |before|] && IsDigit(digits[i - |before|]);
    }
    ReadPrint(|x|);
    assert ColonFrom(s, |before|) == Some(colon);
  }

  /** The decoder undoes the encoder, for texts whose lengths an `int` can hold. */
  lemma ReadPacked(strings: seq<string>)
    requires forall i :: 0 <= i < |strings| ==> |strings[i]| < INT_LIMIT
    ensures Halts(Pack(strings))
    ensures forall n: nat :: After(Pack(strings), n).Done? ==> After(Pack(strings), n) == Done(true, strings)
  {
    hide *;
    PackedIsPlain("", strings);
    assert "" + Pack(strings) == Pack(strings) && |""| == 0;
    PlainIsRead(Pack(strings));
    UnpackPack(strings);
  }

  lemma {:induction false} FoundColon(s: string, start: nat, end: nat)
    requires start <= end <= |s| && (end < |s| ==> s[end] == ':') && forall i :: start <= i < end ==> s[i] != ':'
    ensures ColonFrom(s, start) == if end == |s| then None else Some(end)
  {
  }
}
