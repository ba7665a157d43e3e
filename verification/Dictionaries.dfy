/** A dictionary kept as text in a fixed array: newline-separated key=value lines with escaped values, found by linear
    search. It acts like an association list in which the first entry of a key counts. */
module Dictionaries {
  import opened Options

  type Byte = b: int | 0 <= b < 256

  const NUL: Byte := 0
  const LF: Byte := 10
  const CR: Byte := 13
  const EQUALS: Byte := 61
  const BACKSLASH: Byte := 92
  const DIGIT_ZERO: Byte := 48
  const LETTER_E: Byte := 101
  const LETTER_N: Byte := 110
  const LETTER_R: Byte := 114

  datatype Entry = Entry(key: seq<Byte>, value: seq<Byte>)

  predicate LegalKey(key: seq<Byte>) {
    NUL !in key && LF !in key && CR !in key && EQUALS !in key
  }

  // ---- the association list ----

  function Lookup(es: seq<Entry>, key: seq<Byte>): Option<seq<Byte>> {
    if es == [] then None else if es[0].key == key then Some(es[0].value) else Lookup(es[1..], key)
  }

  /** A later entry of a key that is already there changes nothing. */
  lemma {:induction false} FirstAddWins(es: seq<Entry>, e: Entry, key: seq<Byte>)
    ensures Lookup(es + [e], key) == if Lookup(es, key) == None && e.key == key then Some(e.value) else Lookup(es, key)
  {
    if es == [] {
      assert es + [e] == [e];
      assert Lookup([e], key) == if e.key == key then Some(e.value) else Lookup([e][1..], key);
    } else {
      assert (es + [e])[1..] == es[1..] + [e];
      FirstAddWins(es[1..], e, key);
    }
  }

  // ---- the text ----

  function EscapeByte(b: Byte): seq<Byte> {
    if b == NUL then [BACKSLASH, DIGIT_ZERO]
    else if b == CR then [BACKSLASH, LETTER_R]
    else if b == LF then [BACKSLASH, LETTER_N]
    else if b == BACKSLASH then [BACKSLASH, BACKSLASH]
    else if b == EQUALS then [BACKSLASH, LETTER_E]
    else [b]
  }

  function Escape(v: seq<Byte>): seq<Byte> {
    if v == [] then [] else EscapeByte(v[0]) + Escape(v[1..])
  }

  /** What an escaped letter stands for. */
  function Meaning(b: Byte): Byte {
    if b == LETTER_R then CR
    else if b == LETTER_N then LF
    else if b == DIGIT_ZERO then NUL
    else if b == LETTER_E then EQUALS
    else b
  }

  function Unescape(s: seq<Byte>, esc: bool): seq<Byte> {
    if s == [] then []
    else if esc then [Meaning(s[0])] + Unescape(s[1..], false)
    else if s[0] == BACKSLASH then Unescape(s[1..], true)
    else [s[0]] + Unescape(s[1..], false)
  }

  function Line(e: Entry): seq<Byte> { e.key + [EQUALS] + Escape(e.value) }

  function Text(es: seq<Entry>): seq<Byte> {
    if es == [] then []
    else if |es| == 1 then Line(es[0])
    else Line(es[0]) + [LF] + Text(es[1..])
  }

  predicate EndsLine(b: Byte) { b == CR || b == LF }

  /** The text up to the end of its first line. */
  function FirstLine(t: seq<Byte>): seq<Byte> {
    if t == [] || EndsLine(t[0]) then [] else [t[0]] + FirstLine(t[1..])
  }

  /** The text after its first line. */
  function SkipLine(t: seq<Byte>): (r: seq<Byte>)
    ensures t != [] ==> |r| < |t|
  {
    if t == [] then [] else if EndsLine(t[0]) then t[1..] else SkipLine(t[1..])
  }

  /** The value of the first line of t that starts with the key and an equals sign. */
  function Find(t: seq<Byte>, key: seq<Byte>): Option<seq<Byte>>
    decreases |t|
  {
    if t == [] then None
    else if key + [EQUALS] <= t then Some(Unescape(FirstLine(t[|key| + 1..]), false))
    else Find(SkipLine(t), key)
  }

  /** How many bytes of the key stand at the start of t. */
  function Common(t: seq<Byte>, key: seq<Byte>): (n: nat)
    ensures n <= |t| && n <= |key|
  {
    if t == [] || key == [] || t[0] != key[0] then 0 else 1 + Common(t[1..], key[1..])
  }

  /** The search as it is for any key: what of the key was recognized is passed over before the line is. */
  function Scan(t: seq<Byte>, key: seq<Byte>): Option<seq<Byte>>
    decreases |t|
  {
    if t == [] then None
    else if key + [EQUALS] <= t then Some(Unescape(FirstLine(t[|key| + 1..]), false))
    else Scan(SkipLine(t[Common(t, key)..]), key)
  }

  lemma {:induction false} CommonIs(t: seq<Byte>, key: seq<Byte>, n: nat)
    requires n <= |t| && n <= |key| && t[..n] == key[..n]
    requires n == |t| || n == |key| || t[n] != key[n]
    ensures Common(t, key) == n
  {
    if n > 0 {
      assert t[0] == t[..n][0] == key[..n][0] == key[0];
      assert t[1..][..n - 1] == t[..n][1..] && key[1..][..n - 1] == key[..n][1..];
      CommonIs(t[1..], key[1..], n - 1);
    }
  }

  lemma {:induction false} SkipCommon(t: seq<Byte>, key: seq<Byte>)
    requires forall b | b in key :: !EndsLine(b)
    ensures SkipLine(t[Common(t, key)..]) == SkipLine(t)
  {
    if t != [] && key != [] && t[0] == key[0] {
      assert key[0] in key && forall b | b in key[1..] :: b in key;
      SkipCommon(t[1..], key[1..]);
      assert t[1..][Common(t[1..], key[1..])..] == t[Common(t, key)..];
    } else {
      assert t[0..] == t;
    }
  }

  /** A key without line ends is searched line by line. */
  lemma {:induction false} ScanIsFind(t: seq<Byte>, key: seq<Byte>)
    requires forall b | b in key :: !EndsLine(b)
    ensures Scan(t, key) == Find(t, key)
    decreases |t|
  {
    hide FirstLine, Unescape, SkipLine, Common;
    if t != [] && !(key + [EQUALS] <= t) {
      SkipCommon(t, key);
      ScanIsFind(SkipLine(t), key);
    }
  }

  // ---- the text of a list of entries acts like the list ----

  predicate Plain(s: seq<Byte>) {
    forall b | b in s :: b != NUL && b != LF && b != CR
  }

  lemma {:induction false} EscapePlain(v: seq<Byte>)
    ensures Plain(Escape(v))
  {
    if v != [] {
      EscapePlain(v[1..]);
    }
  }

  lemma {:induction false} UnescapeEscape(v: seq<Byte>)
    ensures Unescape(Escape(v), false) == v
  {
    if v != [] {
      var e, rest := EscapeByte(v[0]), Escape(v[1..]);
      UnescapeEscape(v[1..]);
      if |e| == 2 {
        assert (e + rest)[0] == BACKSLASH && (e + rest)[1..] == [e[1]] + rest && ([e[1]] + rest)[1..] == rest;
        assert Unescape(e + rest, false) == Unescape([e[1]] + rest, true) == [Meaning(e[1])] + Unescape(rest, false);
      } else {
        assert (e + rest)[1..] == rest;
      }
    }
  }

  lemma {:induction false} LineOf(s: seq<Byte>, rest: seq<Byte>)
    requires Plain(s) && (rest == [] || EndsLine(rest[0]))
    ensures FirstLine(s + rest) == s && SkipLine(s + rest) == if rest == [] then [] else rest[1..]
  {
    if s == [] {
      assert s + rest == rest;
    } else {
      assert (s + rest)[1..] == s[1..] + rest && s[0] in s;
      assert forall b | b in s[1..] :: b in s;
      LineOf(s[1..], rest);
    }
  }

  /** Two keys cannot both be followed by an equals sign at the start of one text. */
  lemma OneKey(t: seq<Byte>, k: seq<Byte>, k': seq<Byte>)
    requires EQUALS !in k && EQUALS !in k' && k + [EQUALS] <= t && k' + [EQUALS] <= t
    ensures k == k'
  {
    assert t[|k|] == (k + [EQUALS])[|k|] == EQUALS && t[|k'|] == (k' + [EQUALS])[|k'|] == EQUALS;
    assert forall i | 0 <= i < |k| :: t[i] == (k + [EQUALS])[i] == k[i] && k[i] in k;
    assert forall i | 0 <= i < |k'| :: t[i] == (k' + [EQUALS])[i] == k'[i] && k'[i] in k';
    assert |k| == |k'|;
    assert k == t[..|k|] && k' == t[..|k'|];
  }

  lemma PlainLine(e: Entry)
    requires LegalKey(e.key)
    ensures Plain(Line(e)) && Plain(Escape(e.value)) && |Line(e)| > 0
  {
    hide Escape;
    EscapePlain(e.value);
    assert forall b | b in Line(e) :: b in e.key || b == EQUALS || b in Escape(e.value);
  }

  /** What follows the first line. */
  function AfterFirst(es: seq<Entry>): (rest: seq<Byte>)
    requires es != []
    ensures rest == [] || EndsLine(rest[0])
  {
    if |es| == 1 then [] else [LF] + Text(es[1..])
  }

  lemma TextSplit(es: seq<Entry>)
    requires es != []
    ensures Text(es) == Line(es[0]) + AfterFirst(es)
    ensures Text(es[1..]) == if AfterFirst(es) == [] then [] else AfterFirst(es)[1..]
  {
    hide Line;
  }

  /** The text of entries starts with the line of the first and goes on with the text of the others. */
  lemma FirstEntry(es: seq<Entry>)
    requires es != [] && LegalKey(es[0].key)
    ensures var k, v, t := es[0].key, es[0].value, Text(es);
      && k + [EQUALS] <= t && FirstLine(t[|k| + 1..]) == Escape(v)
      && SkipLine(t) == Text(es[1..]) && t != []
  {
    hide FirstLine, SkipLine, Escape, Text, AfterFirst, Plain;
    var e := es[0];
    TextSplit(es);
    PlainLine(e);
    LineOf(Line(e), AfterFirst(es));
    assert Text(es)[|e.key| + 1..] == Escape(e.value) + AfterFirst(es);
    LineOf(Escape(e.value), AfterFirst(es));
  }

  /** Searching the text of entries is looking up in the list. */
  lemma {:induction false} FindIsLookup(es: seq<Entry>, key: seq<Byte>)
    requires LegalKey(key) && forall e | e in es :: LegalKey(e.key)
    ensures Find(Text(es), key) == Lookup(es, key)
  {
    if es != [] {
      hide Text, FirstLine, SkipLine, Escape, Unescape;
      assert es[0] in es && forall e | e in es[1..] :: e in es;
      FirstEntry(es);
      FindIsLookup(es[1..], key);
      UnescapeEscape(es[0].value);
      if key + [EQUALS] <= Text(es) {
        OneKey(Text(es), key, es[0].key);
      }
    }
  }

  lemma {:induction false} TextAppend(es: seq<Entry>, e: Entry)
    ensures Text(es + [e]) == if es == [] then Line(e) else Text(es) + [LF] + Line(e)
  {
    hide Line;
    if es == [] {
      assert es + [e] == [e];
    } else {
      assert (es + [e])[1..] == es[1..] + [e] && (es + [e])[0] == es[0];
      TextAppend(es[1..], e);
      if |es| > 1 {
        assert Line(es[0]) + [LF] + (Text(es[1..]) + [LF] + Line(e))
          == Line(es[0]) + [LF] + Text(es[1..]) + [LF] + Line(e);
      } else {
        assert es[1..] == [];
      }
    }
  }

  // ---- the array ----

  /** The text with one more line. */
  function Appended(t: seq<Byte>, e: Entry): seq<Byte> {
    if t == [] then Line(e) else t + [LF] + Line(e)
  }

  /** A search reached the value of the wanted key. */
  lemma ScanHere(t: seq<Byte>, key: seq<Byte>)
    requires key + [EQUALS] <= t
    ensures Scan(t, key) == Some(Unescape(FirstLine(t[|key| + 1..]), false))
  {}

  lemma ScanLater(t: seq<Byte>, key: seq<Byte>)
    requires !(key + [EQUALS] <= t)
    ensures Scan(t, key) == if t == [] then None else Scan(SkipLine(t[Common(t, key)..]), key)
  {}

  lemma SkipOver(t: seq<Byte>, l: nat, p: nat)
    requires l <= p <= |t| && forall i | l <= i < p :: !EndsLine(t[i])
    ensures SkipLine(t[l..]) == SkipLine(t[p..])
    decreases p - l
  {
    if l < p {
      assert t[l..][1..] == t[l + 1..];
      SkipOver(t, l + 1, p);
    }
  }

  lemma SkipHere(t: seq<Byte>)
    requires t == [] || EndsLine(t[0])
    ensures SkipLine(t) == if t == [] then [] else t[1..]
  {}

  lemma FirstLineStep(t: seq<Byte>)
    requires t != [] && !EndsLine(t[0])
    ensures FirstLine(t) == [t[0]] + FirstLine(t[1..])
  {}

  lemma UnescapeStep(s: seq<Byte>, esc: bool)
    requires s != []
    ensures Unescape(s, esc) == if esc then [Meaning(s[0])] + Unescape(s[1..], false)
      else if s[0] == BACKSLASH then Unescape(s[1..], true) else [s[0]] + Unescape(s[1..], false)
  {}

  lemma LineEnds(t: seq<Byte>, esc: bool)
    requires t == [] || EndsLine(t[0])
    ensures Unescape(FirstLine(t), esc) == []
  {}

  /** How many bytes of a value of length n fit before the terminator. */
  function Fits(n: nat, destlen: nat): (r: nat)
    requires destlen > 0
    ensures r <= n && r < destlen && (r == n || r + 1 == destlen)
  {
    if n < destlen then n else destlen - 1
  }

  class Dictionary {
    const d: array<Byte>

    /** What the array holds up to its first zero byte. */
    ghost var text: seq<Byte>

    ghost predicate Valid()
      reads this, d
    {
      |text| < d.Length && NUL !in text && d[..|text|] == text && d[|text|] == NUL
    }

    constructor (capacity: nat)
      requires capacity > 0
      ensures Valid() && text == [] && fresh(d) && d.Length == capacity
    {
      d := new Byte[capacity](_ => NUL);
      text := [];
    }

    /** Load a C string; false if it was longer than the capacity allows. */
    method Load(s: seq<Byte>) returns (ok: bool)
      requires NUL !in s && d.Length > 0
      modifies this`text, d
      ensures Valid() && ok == (|s| < d.Length) && text == if ok then s else s[..d.Length - 1]
    {
      var open := true;
      for i := 0 to d.Length
        invariant open ==> i <= |s| && d[..i] == s[..i]
        invariant !open ==> |s| < i && d[..|s|] == s && forall k | |s| <= k < i :: d[k] == NUL
      {
        if open {
          assert forall k | 0 <= k < |s| :: s[k] in s;
          d[i] := if i < |s| then s[i] else NUL;
          if d[i] == NUL {
            open := false;
          }
        } else {
          d[i] := NUL;
        }
      }
      d[d.Length - 1] := NUL;
      text := if open then s[..d.Length - 1] else s;
      return !open;
    }

    /** The value the search finds for any C string, cut to what the buffer holds; -1 if there is none. */
    method Get(key: seq<Byte>, dest: array<Byte>, destlen: nat) returns (r: int)
      requires Valid() && NUL !in key && destlen <= dest.Length && dest != d
      modifies dest
      ensures destlen == 0 ==> r == -1 && dest[..] == old(dest[..])
      ensures destlen > 0 && Scan(text, key) == None ==> r == -1 && dest[0] == NUL
      ensures destlen > 0 && Scan(text, key).Some? ==>
        var v := Scan(text, key).value;
        r == Fits(|v|, destlen) && dest[..r] == v[..r] && dest[r] == NUL
    {
      if destlen == 0 {
        return -1;
      }
      var found, p := Search(key);
      if found {
        r := CopyValue(dest, destlen, p);
      } else {
        dest[0] := NUL;
        r := -1;
      }
    }

    /** Line by line, the place where the value of the key starts. */
    method Search(key: seq<Byte>) returns (found: bool, p: nat)
      requires Valid() && NUL !in key
      ensures found ==> p <= |text| && Scan(text, key) == Some(Unescape(FirstLine(text[p..]), false))
      ensures !found ==> Scan(text, key) == None
    {
      hide Unescape, FirstLine, SkipLine, Scan, Common;
      p := 0;
      assert text[0..] == text;
      while d[p] != NUL
        invariant p <= |text| && Scan(text[p..], key) == Scan(text, key)
        decreases |text| - p
      {
        ghost var l := p;
        var k;
        k, p := Compare(key, p);
        if k == |key| && d[p] == EQUALS {
          assert text[l..][..|key| + 1] == key + [EQUALS];
          ScanHere(text[l..], key);
          assert text[l..][|key| + 1..] == text[p + 1..];
          return true, p + 1;
        }
        NotHere(key, l, k, p);
        ScanLater(text[l..], key);
        assert text[l..][k..] == text[p..];
        p := SkipToEnd(p);
        if d[p] == NUL {
          ScanNothing(key);
          return false, p;
        }
        p := p + 1;
      }
      assert text[p..] == [];
      ScanNothing(key);
      return false, p;
    }

    /** Compare the key with the text at l. */
    method Compare(key: seq<Byte>, l: nat) returns (k: nat, p: nat)
      requires Valid() && NUL !in key && l <= |text|
      ensures k <= |key| && p == l + k <= |text| && text[l..p] == key[..k]
      ensures k < |key| ==> d[p] == NUL || d[p] != key[k]
    {
      k, p := 0, l;
      while k < |key| && d[p] != NUL
        invariant k <= |key| && p == l + k <= |text| && text[l..p] == key[..k]
      {
        if d[p] != key[k] {
          break;
        }
        assert text[l..p + 1] == text[l..p] + [text[p]] && key[..k + 1] == key[..k] + [key[k]];
        k := k + 1;
        p := p + 1;
      }
    }

    /** Go from p to the end of its line. */
    method SkipToEnd(p: nat) returns (e: nat)
      requires Valid() && p <= |text|
      ensures p <= e <= |text| && SkipLine(text[p..]) == if d[e] != NUL then text[e + 1..] else []
      ensures d[e] != NUL ==> e < |text|
    {
      hide SkipLine;
      e := p;
      while d[e] != NUL && d[e] != CR && d[e] != LF
        invariant p <= e <= |text| && forall i | p <= i < e :: !EndsLine(text[i])
        decreases |text| - e
      {
        e := e + 1;
      }
      SkipOver(text, p, e);
      SkipHere(text[e..]);
      assert e < |text| ==> text[e..][1..] == text[e + 1..];
    }

    /** Where the comparison stopped, the key is not followed by an equals sign. */
    lemma NotHere(key: seq<Byte>, l: nat, k: nat, p: nat)
      requires Valid() && NUL !in key && k <= |key| && p == l + k <= |text| && text[l..p] == key[..k]
      requires k < |key| ==> d[p] == NUL || d[p] != key[k]
      requires k == |key| ==> d[p] != EQUALS
      ensures !(key + [EQUALS] <= text[l..]) && Common(text[l..], key) == k
    {
      assert p < |text| ==> text[l..][k] == text[p];
      assert (key + [EQUALS])[k] == if k < |key| then key[k] else EQUALS;
      assert text[l..][..k] == text[l..p];
      assert p < |text| ==> text[p] in text;
      CommonIs(text[l..], key, k);
    }

    lemma ScanNothing(key: seq<Byte>)
      ensures Scan([], key) == None
    {}

    /** Unescape the value that starts at v into the buffer. */
    method CopyValue(dest: array<Byte>, destlen: nat, v: nat) returns (r: int)
      requires Valid() && v <= |text| && 0 < destlen <= dest.Length && dest != d
      modifies dest
      ensures var value := Unescape(FirstLine(text[v..]), false);
        r == Fits(|value|, destlen) && dest[..r] == value[..r] && dest[r] == NUL
    {
      hide Unescape, FirstLine;
      ghost var value := Unescape(FirstLine(text[v..]), false);
      ghost var so := [];
      var p, j, esc := v, 0, false;
      while d[p] != NUL && d[p] != CR && d[p] != LF
        invariant v <= p <= |text| && j < destlen && so == dest[..j]
        invariant value == so + Unescape(FirstLine(text[p..]), esc)
        decreases |text| - p
      {
        ghost var rest := Unescape(FirstLine(text[p + 1..]), !esc && text[p] == BACKSLASH);
        CopyStep(p, esc, so, rest);
        if esc || d[p] != BACKSLASH {
          var b := if esc then Meaning(d[p]) else d[p];
          esc := false;
          dest[j] := b;
          j := j + 1;
          so := so + [b];
          if j == destlen {
            dest[j - 1] := NUL;
            return j - 1;
          }
        } else {
          esc := true;
        }
        p := p + 1;
      }
      LineEnds(text[p..], esc);
      dest[j] := NUL;
      return j;
    }

    /** What one byte of the line adds to the value. */
    lemma CopyStep(p: nat, esc: bool, so: seq<Byte>, rest: seq<Byte>)
      requires p < |text| && !EndsLine(text[p])
      requires rest == Unescape(FirstLine(text[p + 1..]), !esc && text[p] == BACKSLASH)
      ensures so + Unescape(FirstLine(text[p..]), esc)
        == (if esc then so + [Meaning(text[p])] else if text[p] == BACKSLASH then so else so + [text[p]]) + rest
    {
      hide Unescape, FirstLine;
      assert text[p..][1..] == text[p + 1..];
      FirstLineStep(text[p..]);
      UnescapeStep(FirstLine(text[p..]), esc);
    }

    /** The array while a new line is being written from position i on: the text before it, and w so far. */
    ghost predicate Writing(i: nat, j: nat, w: seq<Byte>)
      reads this, d
    {
      i == |text| && i <= j < d.Length && NUL !in text && d[..i] == text && d[i..j] == w
    }

    lemma WritingIs(i: nat, j: nat, w: seq<Byte>)
      requires Writing(i, j, w)
      ensures i <= j < d.Length && |w| == j - i && i == |text|
    {}

    /** Write one byte of a new line; when that fills the array, take the line back. */
    method Put(i: nat, j: nat, b: Byte, ghost w: seq<Byte>) returns (ok: bool)
      requires Writing(i, j, w)
      modifies d
      ensures ok == (j + 1 < d.Length)
      ensures if ok then Writing(i, j + 1, w + [b]) else Valid()
    {
      d[j] := b;
      assert d[i..j + 1] == w + [b];
      ok := j + 1 < d.Length;
      if !ok {
        d[i] := NUL;
      }
    }

    /** The value, escaped, after the start of its line; then the terminator. */
    method AddValue(i: nat, start: nat, ghost line: seq<Byte>, ghost key: seq<Byte>, value: seq<Byte>)
      returns (ok: bool)
      requires Writing(i, start, line)
      requires NUL !in key && text + line + Escape(value) == Appended(text, Entry(key, value))
      modifies this`text, d
      ensures Valid() && ok == (|Appended(old(text), Entry(key, value))| < d.Length)
      ensures text == if ok then Appended(old(text), Entry(key, value)) else old(text)
    {
      ghost var all := Appended(text, Entry(key, value));
      hide Escape, EscapeByte, Appended;
      var j: nat := start;
      ghost var w := line;
      assert value[0..] == value;
      for k := 0 to |value|
        invariant Writing(i, j, w)
        invariant w + Escape(value[k..]) == line + Escape(value)
        modifies d
      {
        var b := value[k];
        EscapeStep(value, k);
        assert w + (EscapeByte(b) + Escape(value[k + 1..])) == (w + EscapeByte(b)) + Escape(value[k + 1..]);
        LengthLeft(i, j, w, line, value, k, all);
        if b == NUL || b == CR || b == LF || b == BACKSLASH || b == EQUALS {
          var letter := if b == NUL then DIGIT_ZERO else if b == CR then LETTER_R else if b == LF then LETTER_N
                        else if b == BACKSLASH then BACKSLASH else LETTER_E;
          TwoBytes(b, letter, w);
          ok := Put(i, j, BACKSLASH, w);
          if !ok {
            return;
          }
          j := j + 1;
          ok := Put(i, j, letter, w + [BACKSLASH]);
          if !ok {
            return;
          }
          j := j + 1;
        } else {
          OneByte(b);
          ok := Put(i, j, b, w);
          if !ok {
            return;
          }
          j := j + 1;
        }
        w := w + EscapeByte(b);
      }
      NothingToEscape(value[|value|..]);
      assert d[..j] == text + (line + Escape(value)) == text + line + Escape(value);
      d[j] := NUL;
      AppendedHasNoNul(text, key, value);
      text := text + line + Escape(value);
      return true;
    }

    lemma LengthLeft(i: nat, j: nat, w: seq<Byte>, line: seq<Byte>, value: seq<Byte>, k: nat, all: seq<Byte>)
      requires Writing(i, j, w) && k < |value| && w + Escape(value[k..]) == line + Escape(value)
      requires all == text + line + Escape(value)
      ensures |all| >= j + |EscapeByte(value[k])|
    {
      EscapeStep(value, k);
      hide Escape, EscapeByte;
      assert |w + Escape(value[k..])| == (j - i) + |Escape(value[k..])|;
      assert |line + Escape(value)| == |all| - i;
    }

    lemma TwoBytes(b: Byte, letter: Byte, w: seq<Byte>)
      requires b == NUL || b == CR || b == LF || b == BACKSLASH || b == EQUALS
      requires letter == if b == NUL then DIGIT_ZERO else if b == CR then LETTER_R else if b == LF then LETTER_N
                         else if b == BACKSLASH then BACKSLASH else LETTER_E
      ensures EscapeByte(b) == [BACKSLASH, letter] && w + EscapeByte(b) == w + [BACKSLASH] + [letter]
    {}

    lemma OneByte(b: Byte)
      requires !(b == NUL || b == CR || b == LF || b == BACKSLASH || b == EQUALS)
      ensures EscapeByte(b) == [b]
    {}

    lemma EscapeStep(value: seq<Byte>, k: nat)
      requires k < |value|
      ensures Escape(value[k..]) == EscapeByte(value[k]) + Escape(value[k + 1..])
    {
      assert value[k..][1..] == value[k + 1..];
    }

    lemma NothingToEscape(v: seq<Byte>)
      requires v == []
      ensures Escape(v) == []
    {}

    lemma AppendedHasNoNul(t: seq<Byte>, key: seq<Byte>, value: seq<Byte>)
      requires NUL !in t && NUL !in key
      ensures NUL !in Appended(t, Entry(key, value))
    {
      EscapePlain(value);
    }

    /** Append key=value; false, and no change to the text, if there is no room. */
    method Add(key: seq<Byte>, value: seq<Byte>) returns (ok: bool)
      requires Valid() && NUL !in key
      modifies this`text, d
      ensures Valid() && ok == (|Appended(old(text), Entry(key, value))| < d.Length)
      ensures text == if ok then Appended(old(text), Entry(key, value)) else old(text)
    {
      hide *;
      ghost var before := if |text| > 0 then [LF] else [];
      AppendedIs(key, value, before);
      var i := End();
      var j: nat;
      ghost var w;
      ok, j, w := StartLine(i);
      if !ok {
        return;
      }
      ok, j, w := AddKey(i, j, w, key);
      if !ok {
        return;
      }
      WritingIs(i, j, w);
      ok := Put(i, j, EQUALS, w);
      if !ok {
        return;
      }
      ok := AddValue(i, j + 1, w + [EQUALS], key, value);
    }

    lemma AppendedIs(key: seq<Byte>, value: seq<Byte>, before: seq<Byte>)
      requires before == if |text| > 0 then [LF] else []
      ensures Appended(text, Entry(key, value)) == text + (before + key + [EQUALS]) + Escape(value)
      ensures |Appended(text, Entry(key, value))| >= |text| + |before| + |key| + 1
    {}

    method End() returns (i: nat)
      requires Valid()
      ensures i == |text|
    {
      i := 0;
      while d[i] != NUL
        invariant i <= |text|
        decreases |text| - i
      {
        i := i + 1;
      }
    }

    method StartLine(i: nat) returns (ok: bool, j: nat, ghost w: seq<Byte>)
      requires Valid() && i == |text|
      modifies d
      ensures w == if i > 0 then [LF] else []
      ensures if ok then Writing(i, j, w) else Valid() && i + |w| >= d.Length
    {
      ok, j, w := true, i, [];
      assert d[i..j] == w;
      if j > 0 {
        ok := Put(i, j, LF, w);
        j, w := j + 1, [LF];
      }
    }

    method AddKey(i: nat, start: nat, ghost before: seq<Byte>, key: seq<Byte>)
      returns (ok: bool, j: nat, ghost w: seq<Byte>)
      requires Writing(i, start, before)
      modifies d
      ensures if ok then w == before + key && Writing(i, j, w) else Valid() && i + |before| + |key| >= d.Length
    {
      ok, j, w := true, start, before;
      for k := 0 to |key|
        invariant ok && Writing(i, j, w) && w == before + key[..k]
      {
        assert before + key[..k + 1] == w + [key[k]];
        ok := Put(i, j, key[k], w);
        if !ok {
          return;
        }
        j, w := j + 1, w + [key[k]];
      }
      assert key[..|key|] == key;
    }
  }

  // ---- runs ----

  /** The entries that found room, in order. */
  function Accepted(capacity: nat, adds: seq<Entry>): seq<Entry> {
    if adds == [] then []
    else
      var before, e := Accepted(capacity, adds[..|adds| - 1]), adds[|adds| - 1];
      if |Text(before + [e])| < capacity then before + [e] else before
  }

  lemma {:induction false} AcceptedLegal(capacity: nat, adds: seq<Entry>)
    requires forall e | e in adds :: LegalKey(e.key)
    ensures forall e | e in Accepted(capacity, adds) :: LegalKey(e.key)
  {
    if adds != [] {
      assert forall e | e in adds[..|adds| - 1] :: e in adds;
      AcceptedLegal(capacity, adds[..|adds| - 1]);
      assert adds[|adds| - 1] in adds;
    }
  }

  /** Appending a line to the text of a list is the text of the longer list. */
  lemma AppendedIsText(es: seq<Entry>, e: Entry)
    ensures Appended(Text(es), e) == Text(es + [e]) && (Text(es) == [] <==> es == [])
  {
    TextAppend(es, e);
    if es != [] {
      assert EQUALS in Line(es[0]);
    }
  }

  /** Any sequence of adds, then a lookup: the value of the first add of that key that found room, or -1. */
  method AddsThenGet(capacity: nat, adds: seq<Entry>, key: seq<Byte>, dest: array<Byte>) returns (r: int)
    requires capacity > 0 && LegalKey(key) && dest.Length > 0 && forall e | e in adds :: LegalKey(e.key)
    modifies dest
    ensures var v := Lookup(Accepted(capacity, adds), key);
      if v == None then r == -1 && dest[0] == NUL
      else r == Fits(|v.value|, dest.Length) && dest[..r] == v.value[..r] && dest[r] == NUL
  {
    hide Find, Scan, Lookup, Text, Appended;
    var dict := new Dictionary(capacity);
    NoText();
    for i := 0 to |adds|
      invariant dict.Valid() && dict.d != dest && fresh(dict.d) && dict.d.Length == capacity
      invariant dict.text == Text(Accepted(capacity, adds[..i]))
      modifies dict, dict.d
    {
      assert adds[..i + 1][..i] == adds[..i] && adds[i] in adds;
      AppendedIsText(Accepted(capacity, adds[..i]), adds[i]);
      var ok := dict.Add(adds[i].key, adds[i].value);
    }
    assert adds[..|adds|] == adds;
    AcceptedLegal(capacity, adds);
    FindIsLookup(Accepted(capacity, adds), key);
    ScanIsFind(dict.text, key);
    r := dict.Get(key, dest, dest.Length);
  }

  lemma NoText()
    ensures Text([]) == []
  {}
}
