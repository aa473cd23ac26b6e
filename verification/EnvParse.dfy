/** Looking a variable up in an environment file: a pass that measures the value, then a copy. */
module EnvParse {
  import opened Optional

  /** Bytes are numbers below 256; names have no zero byte. */
  type Bytes = seq<int>

  const NEWLINE: int := 10
  const EQUALS: int := 61

  /** This byte read into a signed character equals the end-of-file marker. */
  const ALL_ONES: int := 255

  /** At most this much of a name is looked at. */
  const NAME_LIMIT: nat := 1000

  // ---------- Which line is taken, and what it yields ----------

  function ReadableLength(file: Bytes): (k: nat)
    ensures k <= |file| && forall i :: 0 <= i < k ==> file[i] != ALL_ONES
    ensures k < |file| ==> file[k] == ALL_ONES
  {
    if file == [] || file[0] == ALL_ONES then 0 else 1 + ReadableLength(file[1..])
  }

  /** What can be read: everything up to the first byte taken for the end of the file. */
  function Readable(file: Bytes): Bytes {
    file[..ReadableLength(file)]
  }

  /** Where the line that position `i` is in ends: at its newline, or at the end of the file. */
  function LineEnd(f: Bytes, i: nat): (e: nat)
    requires i <= |f|
    ensures i <= e <= |f|
    decreases |f| - i
  {
    if i == |f| || f[i] == NEWLINE then i else LineEnd(f, i + 1)
  }

  /** How many bytes from position `i` on, within the line and before any `=`, agree with the name
      from position `c` on. */
  function Matched(f: Bytes, i: nat, name: Bytes, c: nat): (m: nat)
    requires i <= |f|
    ensures i + m <= |f|
    decreases |f| - i
  {
    if i == |f| || f[i] == NEWLINE || f[i] == EQUALS || c >= |name| || f[i] != name[c] then 0
    else 1 + Matched(f, i + 1, name, c + 1)
  }

  /** The value that starts at `i`: up to the end of the line, or, if the file ends first, all but the
      last byte of what is left. */
  function ValueAt(f: Bytes, i: nat): Option<Bytes>
    requires i <= |f|
  {
    var e := LineEnd(f, i);
    if e < |f| then Some(f[i..e]) else if i == |f| then None else Some(f[i..|f| - 1])
  }

  /** What the lines from position `i` on yield. A line is taken if what precedes its first `=` is
      matched by the name from position `c` on; that position is carried from line to line. */
  function Lookup(f: Bytes, i: nat, name: Bytes, c: nat): Option<Bytes>
    requires i <= |f|
    decreases |f| - i
  {
    var m, e := Matched(f, i, name, c), LineEnd(f, i);
    if i + m < |f| && f[i + m] == EQUALS then ValueAt(f, i + m + 1)
    else if e == |f| then None
    else Lookup(f, e + 1, name, c + m)
  }

  /** The rest of a line that has failed is passed over. */
  function LookupRest(f: Bytes, i: nat, name: Bytes, c: nat, open: bool): Option<Bytes>
    requires i <= |f|
  {
    var e := LineEnd(f, i);
    if open then Lookup(f, i, name, c) else if e == |f| then None else Lookup(f, e + 1, name, c)
  }

  lemma {:induction false} LookupByOne(f: Bytes, i: nat, name: Bytes, c: nat, open: bool)
    requires i < |f|
    ensures LookupRest(f, i, name, c, open) ==
      if f[i] == NEWLINE then LookupRest(f, i + 1, name, c, true)
      else if open && f[i] == EQUALS then ValueAt(f, i + 1)
      else if open && c < |name| && f[i] == name[c] then LookupRest(f, i + 1, name, c + 1, true)
      else LookupRest(f, i + 1, name, c, false)
  {
    assert f[i] != NEWLINE ==> LineEnd(f, i) == LineEnd(f, i + 1);
  }

  ghost predicate NoNewline(f: Bytes, from: nat, to: nat)
    requires from <= to <= |f|
  {
    forall i :: from <= i < to ==> f[i] != NEWLINE
  }

  lemma {:induction false} LineEndsAt(f: Bytes, i: nat, k: nat)
    requires i <= k <= |f| && NoNewline(f, i, k) && (k < |f| ==> f[k] == NEWLINE)
    ensures LineEnd(f, i) == k
    decreases k - i
  {
    if i < k {
      LineEndsAt(f, i + 1, k);
    }
  }

  // ---------- The code ----------

  /** The variables of the first pass; `done` is set when it leaves the loop at the end of the value. */
  datatype Scan = Scan(val: bool, found: bool, done: bool, offset: nat, cur: nat, count: nat, length: nat)

  /** What they mean when `cur` bytes of `f` have been read and `result` is what is looked for. */
  ghost predicate Meaning(f: Bytes, name: Bytes, result: Option<Bytes>, s: Scan) {
    && s.cur <= |f| && s.count <= |name|
    && (s.found ==> s.offset + s.length == s.cur && result == ValueAt(f, s.offset))
    && (s.found && s.done ==> s.length > 0 && NoNewline(f, s.offset, s.cur - 1) && f[s.cur - 1] == NEWLINE)
    && (s.found && !s.done ==> NoNewline(f, s.offset, s.cur))
    && (!s.found ==> !s.done && s.length == 0 && result == LookupRest(f, s.cur, name, s.count, s.val))
  }

  function Next(s: Scan, c: int, name: Bytes): Scan {
    var s1 := s.(cur := s.cur + 1, length := s.length + if s.found then 1 else 0);
    if c == NEWLINE then s1.(val := true, done := s.found)
    else if !s.found && s.val && c == EQUALS then s1.(found := true, offset := s1.cur)
    else if s.val then
      if s.count < |name| && c == name[s.count] then s1.(count := s.count + 1) else s1.(val := false)
    else s1
  }

  lemma {:induction false} NextKeepsMeaning(f: Bytes, name: Bytes, result: Option<Bytes>, s: Scan)
    requires Meaning(f, name, result, s) && !s.done && s.cur < |f|
    ensures Meaning(f, name, result, Next(s, f[s.cur], name))
  {
    if !s.found {
      LookupByOne(f, s.cur, name, s.count, s.val);
    }
  }

  /** The body of the first loop, on the byte `c` just read. */
  method Consume(s: Scan, c: int, name: Bytes, n: nat, ghost f: Bytes, ghost result: Option<Bytes>) returns (r: Scan)
    requires n <= |name| && s.cur < |f| && c == f[s.cur] && !s.done && Meaning(f, name[..n], result, s)
    ensures r.cur == s.cur + 1 <= |f| && Meaning(f, name[..n], result, r)
  {
    var val, found, done, offset, cur, count, length := s.val, s.found, s.done, s.offset, s.cur, s.count, s.length;
    cur := cur + 1;
    if found {
      length := length + 1;
    }
    if c == NEWLINE {
      val := true;
      done := found;
    } else if !found && val && c == EQUALS {
      found := true;
      offset := cur;
    } else if val {
      if count < n && c == name[count] {
        count := count + 1;
      } else {
        val := false;
      }
    }
    r := Scan(val, found, done, offset, cur, count, length);
    assert r == Next(s, c, name[..n]);
    NextKeepsMeaning(f, name[..n], result, s);
  }

  /** What the offset and the length of a value say; the length counts a terminator. */
  ghost predicate Locates(f: Bytes, result: Option<Bytes>, offset: nat, length: nat) {
    match result
    case None => length == 0
    case Some(v) => length == |v| + 1 && offset + length - 1 <= |f| && f[offset..offset + length - 1] == v
  }

  lemma EndOfScan(f: Bytes, name: Bytes, result: Option<Bytes>, s: Scan)
    requires Meaning(f, name, result, s) && (s.done || s.cur == |f|)
    ensures Locates(f, result, s.offset, s.length)
  {
    if s.found {
      LineEndsAt(f, s.offset, if s.done then s.cur - 1 else s.cur);
    }
  }

  /** The first pass over the file. */
  method Measure(file: Bytes, name: Bytes) returns (offset: nat, length: nat)
    ensures Locates(Readable(file), Lookup(Readable(file), 0, Name(name), 0), offset, length)
  {
    var n := if |name| < NAME_LIMIT then |name| else NAME_LIMIT;
    ghost var f, key := Readable(file), name[..n];
    assert Name(name) == key;
    ghost var result := Lookup(f, 0, key, 0);
    var s := Scan(true, false, false, 0, 0, 0, 0);
    while !s.done && s.cur < |file| && file[s.cur] != ALL_ONES
      invariant s.cur <= |f| && Meaning(f, key, result, s)
      decreases |f| - s.cur
    {
      s := Consume(s, file[s.cur], name, n, f, result);
    }
    EndOfScan(f, key, result, s);
    offset, length := s.offset, s.length;
  }

  function Name(name: Bytes): (n: Bytes)
    ensures |n| <= NAME_LIMIT
  {
    if |name| < NAME_LIMIT then name else name[..NAME_LIMIT]
  }

  /** The second pass: copies the value and terminates it. */
  method CopyValue(file: Bytes, offset: nat, length: nat) returns (res: array<int>)
    requires length > 0 && offset + length - 1 <= |file|
    ensures fresh(res) && res[..] == file[offset..offset + length - 1] + [0]
  {
    res := new int[length];
    for i := 0 to length - 1
      invariant res[..i] == file[offset..offset + i]
    {
      res[i] := file[offset + i];
    }
    res[length - 1] := 0;
  }

  /** `d_getenv` on the contents of a file: a terminated string, or nothing. */
  method GetEnv(file: Bytes, name: Bytes) returns (res: array?<int>)
    ensures match Lookup(Readable(file), 0, Name(name), 0)
      case None => res == null
      case Some(v) => res != null && fresh(res) && res[..] == v + [0]
  {
    var offset, length := Measure(file, name);
    if length == 0 {
      return null;
    }
    assert Readable(file)[offset..offset + length - 1] == file[offset..offset + length - 1];
    res := CopyValue(file, offset, length);
  }

  // ---------- What files yield ----------

  /** Without a newline and without the byte that is taken for the end of the file. */
  predicate Plain(s: Bytes) {
    10 !in s && 255 !in s
  }

  /** A line `key=value` with its newline. */
  function Line(key: Bytes, value: Bytes): Bytes {
    key + [61] + value + [10]
  }

  /** How far a key agrees with the name from position `c` on. */
  function Agreement(key: Bytes, name: Bytes, c: nat): (m: nat)
    ensures m <= |key|
  {
    if key == [] || c >= |name| || key[0] != name[c] then 0 else 1 + Agreement(key[1..], name, c + 1)
  }

  lemma {:induction false} FullAgreementIff(key: Bytes, name: Bytes, c: nat)
    requires c <= |name|
    ensures Agreement(key, name, c) == |key| <==> key <= name[c..]
  {
    if key != [] && c < |name| {
      FullAgreementIff(key[1..], name, c + 1);
      assert name[c..] == [name[c]] + name[c + 1..] && key == [key[0]] + key[1..];
    }
  }

  /** The bytes of the file from `i` on begin with `s`. */
  predicate StandsAt(s: Bytes, f: Bytes, i: nat) {
    i + |s| <= |f| && f[i..i + |s|] == s
  }

  lemma StandsInParts(a: Bytes, b: Bytes, f: Bytes, i: nat)
    requires StandsAt(a + b, f, i)
    ensures StandsAt(a, f, i) && StandsAt(b, f, i + |a|)
    ensures forall j :: i <= j < i + |a| ==> f[j] == a[j - i]
  {
    var s := f[i..i + |a + b|];
    assert f[i..i + |a|] == s[..|a|] == a && f[i + |a|..i + |a + b|] == s[|a|..] == b;
    forall j | i <= j < i + |a| ensures f[j] == a[j - i] {
      assert f[i..i + |a|][j - i] == f[j];
    }
  }

  lemma {:induction false} MatchedIsAgreement(f: Bytes, i: nat, key: Bytes, name: Bytes, c: nat)
    requires NEWLINE !in key && EQUALS !in key && StandsAt(key, f, i)
    requires i + |key| < |f| && (f[i + |key|] == EQUALS || f[i + |key|] == NEWLINE)
    ensures Matched(f, i, name, c) == Agreement(key, name, c)
    decreases |key|
  {
    if key != [] {
      assert f[i] == f[i..i + |key|][0] == key[0] && f[i + 1..i + |key|] == key[1..];
      MatchedIsAgreement(f, i + 1, key[1..], name, c + 1);
    }
  }

  lemma LineEndsBehind(f: Bytes, i: nat, line: Bytes)
    requires NEWLINE !in line && StandsAt(line + [NEWLINE], f, i)
    ensures LineEnd(f, i) == i + |line| < |f| && f[i + |line|] == NEWLINE && StandsAt(line, f, i)
    ensures forall k :: i <= k < i + |line| ==> f[k] == line[k - i]
  {
    StandsInParts(line, [NEWLINE], f, i);
    assert f[i + |line|] == f[i + |line|..i + |line| + 1][0];
    LineEndsAt(f, i, i + |line|);
  }

  lemma LineSplits(f: Bytes, i: nat, key: Bytes, value: Bytes)
    requires StandsAt(Line(key, value), f, i)
    ensures i + |Line(key, value)| == i + |key| + |value| + 2 <= |f|
    ensures StandsAt(key + [EQUALS] + value + [NEWLINE], f, i) && StandsAt(key, f, i)
    ensures f[i + |key|] == EQUALS && forall j :: i <= j < i + |key| ==> f[j] == key[j - i]
    ensures StandsAt(value + [NEWLINE], f, i + |key| + 1)
  {
    var tail := [EQUALS] + (value + [NEWLINE]);
    assert Line(key, value) == key + tail;
    StandsInParts(key, tail, f, i);
    StandsInParts([EQUALS], value + [NEWLINE], f, i + |key|);
  }

  /** Where the parts of a line lie, and how far it agrees with the name. */
  lemma {:induction false} PartsOfLine(f: Bytes, i: nat, key: Bytes, value: Bytes, name: Bytes, c: nat)
    requires NEWLINE !in key && EQUALS !in key && NEWLINE !in value && StandsAt(Line(key, value), f, i)
    ensures LineEnd(f, i) + 1 == i + |Line(key, value)|
    ensures LineEnd(f, i + |key| + 1) == LineEnd(f, i) && StandsAt(value, f, i + |key| + 1)
    ensures Matched(f, i, name, c) == Agreement(key, name, c)
    ensures f[i + |key|] == EQUALS && forall j :: i <= j < i + |key| ==> f[j] != EQUALS
  {
    LineSplits(f, i, key, value);
    LineEndsBehind(f, i, key + [EQUALS] + value);
    LineEndsBehind(f, i + |key| + 1, value);
    MatchedIsAgreement(f, i, key, name, c);
  }

  /** A line in a file is taken exactly if its key is a prefix of what is left of the name, and then
      yields its value; otherwise the search goes on behind it, with as much of the name gone as
      the key agreed with. */
  lemma {:induction false} LineIsTakenIff(f: Bytes, i: nat, key: Bytes, value: Bytes, name: Bytes, c: nat)
    requires NEWLINE !in key && EQUALS !in key && NEWLINE !in value && c <= |name|
    requires StandsAt(Line(key, value), f, i)
    ensures Lookup(f, i, name, c) ==
      if key <= name[c..] then Some(value)
      else Lookup(f, i + |Line(key, value)|, name, c + Agreement(key, name, c))
  {
    PartsOfLine(f, i, key, value, name, c);
    FullAgreementIff(key, name, c);
  }

  /** Lines that cannot be confused with one for `name`: empty, or starting otherwise. */
  predicate Unlike(line: Bytes, name: Bytes) {
    && Plain(line)
    && (line != [] && name != [] ==> line[0] != name[0] && line[0] != 61)
  }

  function Lines(lines: seq<Bytes>): Bytes {
    if lines == [] then [] else lines[0] + [10] + Lines(lines[1..])
  }

  /** What one line by itself does to a search: it yields a value, or is passed with so much of the
      name matched so far. */
  datatype Passing = Found(value: Bytes) | Passed(c: nat)

  function PassLine(line: Bytes, name: Bytes, c: nat): Passing {
    var m := Matched(line, 0, name, c);
    if m < |line| && line[m] == EQUALS then Found(line[m + 1..]) else Passed(c + m)
  }

  function PassLines(lines: seq<Bytes>, name: Bytes, c: nat): Passing {
    if lines == [] then Passed(c)
    else match PassLine(lines[0], name, c)
      case Found(v) => Found(v)
      case Passed(d) => PassLines(lines[1..], name, d)
  }

  /** What a search yields that goes on from position `i` after that. */
  function Onward(f: Bytes, i: nat, p: Passing, name: Bytes): Option<Bytes>
    requires i <= |f|
  {
    match p
    case Found(v) => Some(v)
    case Passed(d) => Lookup(f, i, name, d)
  }

  lemma {:induction false} MatchedInLine(f: Bytes, i: nat, line: Bytes, j: nat, name: Bytes, c: nat)
    requires j <= |line| && i + |line| < |f| && f[i + |line|] == NEWLINE
    requires forall k :: i <= k < i + |line| ==> f[k] == line[k - i]
    ensures Matched(f, i + j, name, c) == Matched(line, j, name, c)
    decreases |line| - j
  {
    if j < |line| {
      MatchedInLine(f, i, line, j + 1, name, c + 1);
    }
  }

  /** A line that is not taken is passed, if another follows. */
  lemma {:induction false} LineFails(f: Bytes, i: nat, name: Bytes, c: nat, m: nat, e: nat)
    requires i <= |f| && Matched(f, i, name, c) == m && LineEnd(f, i) == e
    requires i + m < |f| ==> f[i + m] != EQUALS
    ensures Onward(f, i, Passed(c), name) == if e < |f| then Onward(f, e + 1, Passed(c + m), name) else None
  {
  }

  lemma {:induction false} TakenByItself(f: Bytes, i: nat, line: Bytes, name: Bytes, c: nat, m: nat)
    requires NEWLINE !in line && i + |line| < |f| && f[i + |line|] == NEWLINE
    requires forall k :: i <= k < i + |line| ==> f[k] == line[k - i]
    requires m == Matched(f, i, name, c) < |line| && line[m] == EQUALS
    ensures Onward(f, i, Passed(c), name) == Some(line[m + 1..])
  {
    ValueInLine(f, i, line, m + 1);
    assert f[i + m] == line[m];
  }

  lemma {:induction false} LineByItself(f: Bytes, i: nat, line: Bytes, name: Bytes, c: nat)
    requires NEWLINE !in line && StandsAt(line + [NEWLINE], f, i)
    ensures Onward(f, i, Passed(c), name) == Onward(f, i + |line| + 1, PassLine(line, name, c), name)
  {
    LineEndsBehind(f, i, line);
    MatchedInLine(f, i, line, 0, name, c);
    var m := Matched(line, 0, name, c);
    if m < |line| && line[m] == EQUALS {
      TakenByItself(f, i, line, name, c, m);
    } else {
      assert m < |line| ==> f[i + m] == line[m];
      LineFails(f, i, name, c, m, i + |line|);
    }
  }

  lemma ValueInLine(f: Bytes, i: nat, line: Bytes, j: nat)
    requires NEWLINE !in line && j <= |line| && i + |line| < |f| && f[i + |line|] == NEWLINE
    requires forall k :: i <= k < i + |line| ==> f[k] == line[k - i]
    ensures ValueAt(f, i + j) == Some(line[j..])
  {
    assert forall k :: i + j <= k < i + |line| ==> f[k] == line[k - i];
    LineEndsAt(f, i + j, i + |line|);
    assert f[i + j..i + |line|] == line[j..];
  }

  lemma FirstOfLines(f: Bytes, i: nat, lines: seq<Bytes>)
    requires lines != [] && StandsAt(Lines(lines), f, i)
    ensures lines[0] in lines && StandsAt(lines[0] + [NEWLINE], f, i)
    ensures StandsAt(Lines(lines[1..]), f, i + |lines[0]| + 1)
    ensures |Lines(lines)| == |lines[0]| + 1 + |Lines(lines[1..])|
  {
    var first, rest := lines[0] + [NEWLINE], Lines(lines[1..]);
    assert Lines(lines) == first + rest;
    StandsInParts(first, rest, f, i);
  }

  /** Lines that stand in a file do to the search what they do by themselves. */
  lemma {:induction false} LinesByThemselves(f: Bytes, i: nat, lines: seq<Bytes>, name: Bytes, c: nat)
    requires StandsAt(Lines(lines), f, i) && forall l :: l in lines ==> NEWLINE !in l
    ensures Onward(f, i, Passed(c), name) == Onward(f, i + |Lines(lines)|, PassLines(lines, name, c), name)
    decreases |lines|
  {
    if lines != [] {
      FirstOfLines(f, i, lines);
      var line, rest, p := lines[0], lines[1..], PassLine(lines[0], name, c);
      var next := i + |line| + 1;
      LineByItself(f, i, line, name, c);
      if p.Passed? {
        LinesByThemselves(f, next, rest, name, p.c);
        assert PassLines(lines, name, c) == PassLines(rest, name, p.c);
      } else {
        assert PassLines(lines, name, c) == p;
      }
      assert next + |Lines(rest)| == i + |Lines(lines)|;
    }
  }

  lemma {:induction false} MatchedWithinName(f: Bytes, i: nat, name: Bytes, c: nat)
    requires i <= |f| && c <= |name|
    ensures c + Matched(f, i, name, c) <= |name|
    decreases |f| - i
  {
    if i < |f| && c < |name| {
      MatchedWithinName(f, i + 1, name, c + 1);
    }
  }

  lemma {:induction false} ProgressGrows(lines: seq<Bytes>, name: Bytes, c: nat)
    requires c <= |name|
    ensures PassLines(lines, name, c).Passed? ==> c <= PassLines(lines, name, c).c <= |name|
  {
    if lines != [] {
      MatchedWithinName(lines[0], 0, name, c);
      match PassLine(lines[0], name, c)
      case Found(_) =>
      case Passed(d) => ProgressGrows(lines[1..], name, d);
    }
  }

  /** Lines leave the search as it was exactly if none of them can be confused. */
  lemma {:induction false} UnlikeIff(lines: seq<Bytes>, name: Bytes)
    requires name != [] && forall l :: l in lines ==> Plain(l)
    ensures PassLines(lines, name, 0) == Passed(0) <==> forall l :: l in lines ==> Unlike(l, name)
  {
    if lines != [] {
      var line := lines[0];
      assert line in lines && lines == [line] + lines[1..];
      assert PassLine(line, name, 0) == Passed(0) <==> Unlike(line, name);
      UnlikeIff(lines[1..], name);
      MatchedWithinName(line, 0, name, 0);
      match PassLine(line, name, 0)
      case Found(_) =>
      case Passed(d) => ProgressGrows(lines[1..], name, d);
    }
  }

  /** `f` is something followed by `rest`. */
  ghost predicate EndsIn(f: Bytes, d: nat, rest: Bytes) {
    |f| == d + |rest| && forall j :: d <= j < |f| ==> f[j] == rest[j - d]
  }

  lemma {:induction false} MatchedShifts(f: Bytes, d: nat, rest: Bytes, i: nat, name: Bytes, c: nat)
    requires EndsIn(f, d, rest) && i <= |rest|
    ensures Matched(f, d + i, name, c) == Matched(rest, i, name, c)
    decreases |rest| - i
  {
    if i < |rest| {
      MatchedShifts(f, d, rest, i + 1, name, c + 1);
    }
  }

  lemma {:induction false} LineEndShifts(f: Bytes, d: nat, rest: Bytes, i: nat)
    requires EndsIn(f, d, rest) && i <= |rest|
    ensures LineEnd(f, d + i) == d + LineEnd(rest, i)
    decreases |rest| - i
  {
    if i < |rest| && rest[i] != NEWLINE {
      LineEndShifts(f, d, rest, i + 1);
    }
  }

  lemma ValueShifts(f: Bytes, d: nat, rest: Bytes, i: nat)
    requires EndsIn(f, d, rest) && i <= |rest|
    ensures ValueAt(f, d + i) == ValueAt(rest, i)
  {
    LineEndShifts(f, d, rest, i);
    var e := LineEnd(rest, i);
    assert f[d + i..d + e] == rest[i..e];
    if i < |rest| {
      var v, w := f[d + i..|f| - 1], rest[i..|rest| - 1];
      forall k | 0 <= k < |v| ensures v[k] == w[k] {
        assert f[d + i + k] == rest[i + k];
      }
      assert v == w;
    }
  }

  lemma {:induction false} TakenShifts(f: Bytes, d: nat, rest: Bytes, i: nat, name: Bytes, c: nat, m: nat)
    requires EndsIn(f, d, rest) && i + m < |rest| && rest[i + m] == EQUALS
    requires Matched(rest, i, name, c) == Matched(f, d + i, name, c) == m
    ensures Onward(f, d + i, Passed(c), name) == Onward(rest, i, Passed(c), name)
  {
    ValueShifts(f, d, rest, i + m + 1);
  }

  /** A search sees nothing of what is before it. */
  lemma {:induction false} LookupShifts(f: Bytes, d: nat, rest: Bytes, i: nat, name: Bytes, c: nat)
    requires EndsIn(f, d, rest) && i <= |rest|
    ensures Onward(f, d + i, Passed(c), name) == Onward(rest, i, Passed(c), name)
    decreases |rest| - i
  {
    MatchedShifts(f, d, rest, i, name, c);
    LineEndShifts(f, d, rest, i);
    var m, e := Matched(rest, i, name, c), LineEnd(rest, i);
    if i + m < |rest| && rest[i + m] == EQUALS {
      TakenShifts(f, d, rest, i, name, c, m);
    } else {
      LineFails(f, d + i, name, c, m, d + e);
      LineFails(rest, i, name, c, m, e);
      if e < |rest| {
        LookupShifts(f, d, rest, e + 1, name, c + m);
      }
    }
  }

  lemma {:induction false} PlainIsReadable(head: Bytes, rest: Bytes)
    requires ALL_ONES !in head
    ensures Readable(head + rest) == head + Readable(rest)
  {
    if head == [] {
      assert head + rest == rest && head + Readable(rest) == Readable(rest);
    } else {
      PlainIsReadable(head[1..], rest);
      assert (head + rest)[1..] == head[1..] + rest && (head + rest)[0] == head[0];
      assert head + rest == [head[0]] + (head[1..] + rest);
    }
  }

  lemma {:induction false} LinesArePlain(lines: seq<Bytes>)
    requires forall l :: l in lines ==> Plain(l)
    ensures ALL_ONES !in Lines(lines)
  {
    if lines != [] {
      assert lines[0] in lines;
      LinesArePlain(lines[1..]);
    }
  }

  lemma Concatenated(a: Bytes, b: Bytes, r: Bytes)
    ensures StandsAt(a, a + b + r, 0) && StandsAt(b, a + b + r, |a|) && EndsIn(a + b + r, |a| + |b|, r)
  {
  }

  lemma HeadIsPlain(lines: seq<Bytes>, name: Bytes, value: Bytes)
    requires Plain(name) && Plain(value) && forall l :: l in lines ==> Plain(l)
    ensures ALL_ONES !in Lines(lines) + Line(name, value)
  {
    LinesArePlain(lines);
  }

  /** A file of plain lines, a line for the variable and more, as it is read. */
  lemma FileInParts(lines: seq<Bytes>, name: Bytes, value: Bytes, rest: Bytes)
    requires Plain(name) && Plain(value) && forall l :: l in lines ==> Plain(l)
    ensures var f := Readable(Lines(lines) + Line(name, value) + rest);
      && StandsAt(Lines(lines), f, 0) && StandsAt(Line(name, value), f, |Lines(lines)|)
      && EndsIn(f, |Lines(lines)| + |Line(name, value)|, Readable(rest))
  {
    HeadIsPlain(lines, name, value);
    PlainIsReadable(Lines(lines) + Line(name, value), rest);
    Concatenated(Lines(lines), Line(name, value), Readable(rest));
  }

  lemma NameIsWhole(name: Bytes)
    requires |name| <= 1000
    ensures Name(name) == name
  {
  }

  lemma {:induction false} OwnLineIsTaken(f: Bytes, i: nat, name: Bytes, value: Bytes)
    requires NEWLINE !in name && EQUALS !in name && NEWLINE !in value && StandsAt(Line(name, value), f, i)
    ensures Onward(f, i, Passed(0), name) == Some(value)
  {
    LineIsTakenIff(f, i, name, value, name, 0);
    assert name[0..] == name;
  }

  /** A file that has, behind lines unlike it, a line for the variable yields exactly its value,
      whatever follows. */
  lemma {:induction false} VariableIsFound(lines: seq<Bytes>, name: Bytes, value: Bytes, rest: Bytes)
    requires name != [] && |name| <= 1000 && Plain(name) && 61 !in name && Plain(value)
    requires forall l :: l in lines ==> Unlike(l, name)
    ensures Lookup(Readable(Lines(lines) + Line(name, value) + rest), 0, Name(name), 0) == Some(value)
  {
    var f := Readable(Lines(lines) + Line(name, value) + rest);
    NameIsWhole(name);
    FileInParts(lines, name, value, rest);
    UnlikeIff(lines, name);
    LinesByThemselves(f, 0, lines, name, 0);
    OwnLineIsTaken(f, |Lines(lines)|, name, value);
  }

  /** With a part of the name already matched, the variable's own line is passed. */
  lemma {:induction false} LinePassedOver(f: Bytes, i: nat, name: Bytes, value: Bytes, rest: Bytes, c: nat)
    requires NEWLINE !in name && EQUALS !in name && NEWLINE !in value && 0 < c <= |name|
    requires StandsAt(Line(name, value), f, i) && EndsIn(f, i + |Line(name, value)|, rest)
    ensures Onward(f, i, Passed(c), name) == Onward(rest, 0, Passed(c + Agreement(name, name, c)), name)
  {
    assert |name[c..]| < |name|;
    LineIsTakenIff(f, i, name, value, name, c);
    LookupShifts(f, i + |Line(name, value)|, rest, 0, name, c + Agreement(name, name, c));
  }

  /** What a file yields whose lines before the variable's can be confused with it: always the same. */
  function Confused(lines: seq<Bytes>, name: Bytes, rest: Bytes): Option<Bytes> {
    match PassLines(lines, name, 0)
    case Found(v) => Some(v)
    case Passed(c) => Onward(Readable(rest), 0, Passed(c + Agreement(name, name, c)), name)
  }

  lemma {:induction false} ValueIsNotSeen(lines: seq<Bytes>, name: Bytes, value: Bytes, rest: Bytes)
    requires name != [] && Plain(name) && EQUALS !in name && Plain(value)
    requires (forall l :: l in lines ==> Plain(l)) && PassLines(lines, name, 0) != Passed(0)
    ensures Lookup(Readable(Lines(lines) + Line(name, value) + rest), 0, name, 0) == Confused(lines, name, rest)
  {
    var f := Readable(Lines(lines) + Line(name, value) + rest);
    FileInParts(lines, name, value, rest);
    LinesByThemselves(f, 0, lines, name, 0);
    ProgressGrows(lines, name, 0);
    match PassLines(lines, name, 0)
    case Found(_) =>
    case Passed(c) => LinePassedOver(f, |Lines(lines)|, name, value, Readable(rest), c);
  }

  /** Of a longer name only the first thousand bytes count, and of the file only what is before the first
      byte 255. */
  lemma OnlyThisMuchCounts(file: Bytes, rest: Bytes, name: Bytes)
    requires 255 !in file
    ensures |name| > 1000 ==> Name(name) == name[..1000]
    ensures |name| <= 1000 ==> Name(name) == name
    ensures Readable(file + [255] + rest) == file && Readable(file) == file
  {
    PlainIsReadable(file, [255] + rest);
    PlainIsReadable(file, []);
    assert file + [255] + rest == file + ([255] + rest) && file + [] == file;
  }

  /** The exact condition: behind given lines a variable is found with its value, for every value, if
      and only if none of the lines can be confused with one for it. */
  lemma VariableIsFoundIff(lines: seq<Bytes>, name: Bytes, rest: Bytes)
    requires name != [] && |name| <= 1000 && Plain(name) && 61 !in name
    requires forall l :: l in lines ==> Plain(l)
    ensures (forall value :: Plain(value) ==>
               Lookup(Readable(Lines(lines) + Line(name, value) + rest), 0, Name(name), 0) == Some(value))
            <==> (forall l :: l in lines ==> Unlike(l, name))
  {
    NameIsWhole(name);
    if forall l :: l in lines ==> Unlike(l, name) {
      forall value | Plain(value)
        ensures Lookup(Readable(Lines(lines) + Line(name, value) + rest), 0, Name(name), 0) == Some(value)
      {
        VariableIsFound(lines, name, value, rest);
      }
    } else {
      UnlikeIff(lines, name);
      var other := if Confused(lines, name, rest) == Some([]) then [0] else [];
      assert Plain(other);
      ValueIsNotSeen(lines, name, other, rest);
    }
  }

  /** Without its newline at the end of the file, the value comes out one byte short, and an empty
      one not at all. */
  lemma {:induction false} UnterminatedValueIsCut(lines: seq<Bytes>, name: Bytes, value: Bytes)
    requires name != [] && |name| <= 1000 && Plain(name) && 61 !in name && Plain(value)
    requires forall l :: l in lines ==> Unlike(l, name)
    ensures Lookup(Readable(Lines(lines) + (name + [61] + value)), 0, Name(name), 0)
            == if value == [] then None else Some(value[..|value| - 1])
  {
    var last := name + [EQUALS] + value;
    var f := Lines(lines) + last;
    NameIsWhole(name);
    LinesArePlain(lines);
    PlainIsReadable(f, []);
    assert f + [] == f && f + Readable([]) == f;
    assert f[0..|Lines(lines)|] == Lines(lines);
    UnlikeIff(lines, name);
    LinesByThemselves(f, 0, lines, name, 0);
    LookupShifts(f, |Lines(lines)|, last, 0, name, 0);
    LastValueIsCut(name, value);
  }

  lemma {:induction false} LastValueIsCut(name: Bytes, value: Bytes)
    requires NEWLINE !in name && EQUALS !in name && NEWLINE !in value
    ensures Lookup(name + [EQUALS] + value, 0, name, 0) == if value == [] then None else Some(value[..|value| - 1])
  {
    var f := name + [EQUALS] + value;
    MatchedIsAgreement(f, 0, name, name, 0);
    FullAgreementIff(name, name, 0);
    assert name[0..] == name;
    assert forall i :: |name| + 1 <= i < |f| ==> f[i] == value[i - |name| - 1];
    LineEndsAt(f, |name| + 1, |f|);
    assert value != [] ==> f[|name| + 1..|f| - 1] == value[..|value| - 1];
  }

  /** The progress made in one line is not forgotten in the next: for the name `NAME`, the lines
      `NA` and `ME=5` yield `5`. */
  lemma ProgressIsCarriedOver()
    ensures Lookup([78, 65, NEWLINE] + Line([77, 69], [53]), 0, [78, 65, 77, 69], 0) == Some([53])
  {
    var name, line := [78, 65, 77, 69], Line([77, 69], [53]);
    var f := [78, 65, NEWLINE] + line;
    MatchedIsAgreement(f, 0, [78, 65], name, 0);
    assert Agreement([65], name, 1) == 1 && Agreement([78, 65], name, 0) == 2;
    LineEndsBehind(f, 0, [78, 65]);
    assert f[3..3 + |line|] == line;
    LineIsTakenIff(f, 3, [77, 69], [53], name, 2);
    assert name[2..] == [77, 69];
  }
}
