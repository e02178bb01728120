/** Append-only files of one encoded record per line, as crashes and torn writes leave them. */
module LineLog {
  import opened Wrappers
  import opened Text

  /** How records become text and back. Encoding may fail; decoding may reject. */
  datatype Codec<!T> = Codec(enc: T -> Option<string>, dec: string -> Option<T>)

  datatype ReadError = LineTooLong | LineUnparsable
  datatype WriteError = CannotOpen | CannotEncode | ShortWrite | SyncFailed

  /** What the operating system may do to one append: refuse to open, stop after some
      bytes, or fail to sync bytes that were all written. */
  datatype WriteFault = NoFault | OpenFails | Torn(written: nat) | SyncFails

  /** The text of a file, if the file exists. */
  type File = Option<string>

  /** The scanner gives up on a line that fills its whole buffer. */
  const MAX_TOKEN: nat := 65536

  function Content(f: File): string {
    f.GetOr("")
  }

  // Reading.

  /** What reading a text yields: its decoded lines in order, or the first failure. */
  function ReadText<T>(text: string, c: Codec<T>): Result<seq<T>, ReadError>
    decreases |text|
  {
    if text == "" then Ok([])
    else
      var i := IndexOf(text, '\n');
      Chain(ReadLine(text[..i], c), ReadText(if i < |text| then text[i + 1..] else "", c))
  }

  /** One line without its newline: too long, blank, bad, or one record. */
  function ReadLine<T>(raw: string, c: Codec<T>): Result<seq<T>, ReadError> {
    if |raw| >= MAX_TOKEN then Err(LineTooLong)
    else
      var line := TrimSpace(raw);
      if line == "" then Ok([])
      else if c.dec(line).None? then Err(LineUnparsable)
      else Ok([c.dec(line).value])
  }

  function Chain<T>(a: Result<seq<T>, ReadError>, b: Result<seq<T>, ReadError>): Result<seq<T>, ReadError> {
    match a
    case Err(e) => Err(e)
    case Ok(xs) => match b
      case Err(e) => Err(e)
      case Ok(ys) => Ok(xs + ys)
  }

  function ReadFile<T>(f: File, c: Codec<T>): Result<seq<T>, ReadError> {
    ReadText(Content(f), c)
  }

  method ReadNDJSON<T>(f: File, c: Codec<T>) returns (r: Result<seq<T>, ReadError>)
    ensures r == ReadFile(f, c)
  {
    if f.None? {
      return Ok([]);
    }
    var items: seq<T> := [];
    var rest := f.value;
    ChainUnit(ReadText(rest, c));
    while rest != ""
      invariant ReadText(f.value, c) == Chain(Ok(items), ReadText(rest, c))
      decreases |rest|
    {
      var i := IndexOf(rest, '\n');
      var raw := rest[..i];
      ghost var before := rest;
      rest := if i < |rest| then rest[i + 1..] else "";
      assert ReadText(before, c) == Chain(ReadLine(raw, c), ReadText(rest, c));
      if |raw| >= MAX_TOKEN {
        return Err(LineTooLong);
      }
      var line := TrimSpace(raw);
      if |line| != 0 {
        var item := c.dec(line);
        if item.None? {
          return Err(LineUnparsable);
        }
        ChainAssociates(items, [item.value], ReadText(rest, c));
        items := items + [item.value];
      } else {
        ChainAssociates(items, [], ReadText(rest, c));
        assert items + [] == items;
      }
    }
    assert items + [] == items;
    return Ok(items);
  }

  lemma ChainAssociates<T>(a: seq<T>, b: seq<T>, r: Result<seq<T>, ReadError>)
    ensures Chain(Ok(a), Chain(Ok(b), r)) == Chain(Ok(a + b), r)
  {
    if r.Ok? {
      assert a + (b + r.value) == (a + b) + r.value;
    }
  }

  // Writing.

  /** The bytes one append gets onto the disk: all or part of the record's line. */
  function Written<T>(v: T, c: Codec<T>, fault: WriteFault): (x: string)
    ensures c.enc(v).None? || fault.OpenFails? ==> x == ""
    ensures c.enc(v).Some? ==> |x| <= |LineOf(v, c)| && x == LineOf(v, c)[..|x|]
  {
    if fault.OpenFails? || c.enc(v).None? then ""
    else if fault.Torn? && fault.written < |LineOf(v, c)| then LineOf(v, c)[..fault.written]
    else LineOf(v, c)
  }

  /** Append one record as one line. Whatever happens, only a prefix of the line is added;
      success means the whole line, newline included. */
  function AppendNDJSON<T>(f: File, v: T, c: Codec<T>, fault: WriteFault): (r: (File, Option<WriteError>))
    ensures Content(r.0) == Content(f) + Written(v, c, fault)
    ensures r.1.None? ==> r.0.Some? && c.enc(v).Some? && Written(v, c, fault) == LineOf(v, c)
  {
    if fault.OpenFails? then (f, Some(CannotOpen))
    else if c.enc(v).None? then (Some(Content(f)), Some(CannotEncode))
    else (Some(Content(f) + Written(v, c, fault)),
          if fault.Torn? then Some(ShortWrite) else if fault.SyncFails? then Some(SyncFailed) else None)
  }

  /** How much each fault lets through, and that only an encodable record under no fault is
      reported as written. */
  lemma AppendReports<T>(f: File, v: T, c: Codec<T>, fault: WriteFault)
    ensures AppendNDJSON(f, v, c, fault).1.None? <==> c.enc(v).Some? && fault == NoFault
    ensures AppendNDJSON(f, v, c, fault).1 == Some(CannotOpen) <==> fault == OpenFails
    ensures AppendNDJSON(f, v, c, fault).1 == Some(CannotEncode) <==> fault != OpenFails && c.enc(v).None?
    ensures AppendNDJSON(f, v, c, fault).1 == Some(ShortWrite) <==> c.enc(v).Some? && fault.Torn?
    ensures c.enc(v).Some? ==>
              |Written(v, c, fault)| ==
                match fault
                case NoFault => |c.enc(v).value| + 1
                case OpenFails => 0
                case Torn(n) => if n <= |c.enc(v).value| then n else |c.enc(v).value| + 1
                case SyncFails => |c.enc(v).value| + 1
  {
  }

  function LineOf<T>(v: T, c: Codec<T>): string
    requires c.enc(v).Some?
  {
    c.enc(v).value + "\n"
  }

  /** The text that appending records one after another produces. */
  function TextOf<T>(vs: seq<T>, c: Codec<T>): string
    requires forall v | v in vs :: c.enc(v).Some?
  {
    if vs == [] then "" else TextOf(vs[..|vs| - 1], c) + LineOf(vs[|vs| - 1], c)
  }

  // The hypotheses on the codec.

  /** One record: decoding undoes encoding, the encoding is a line that begins and ends
      with a visible byte, and no proper prefix of it decodes. */
  ghost predicate Faithful<T>(c: Codec<T>, v: T)
    requires c.enc(v).Some?
  {
    var s := c.enc(v).value;
    && s != "" && '\n' !in s && !IsSpace(s[0]) && !IsSpace(s[|s| - 1])
    && c.dec(s) == Some(v)
    && forall k | 0 <= k < |s| :: c.dec(s[..k]).None?
  }

  ghost predicate AllFaithful<T(!new)>(c: Codec<T>) {
    forall v :: c.enc(v).Some? ==> Faithful(c, v)
  }

  /** A non-empty piece of an encoding, cut anywhere at the end. */
  ghost predicate Fragment<T(!new)>(c: Codec<T>, s: string) {
    exists v :: c.enc(v).Some? && s != "" && s <= c.enc(v).value
  }

  ghost predicate Fragments<T(!new)>(c: Codec<T>, fs: seq<string>) {
    forall k | 0 <= k < |fs| :: Fragment(c, fs[k])
  }

  /** Pieces run together on one line, as interrupted appends leave them. */
  function Glue(fs: seq<string>): string {
    if fs == [] then "" else Glue(fs[..|fs| - 1]) + fs[|fs| - 1]
  }

  /** The hypotheses: encodings are faithful, what decodes can be encoded again, and two or
      more fragments run together never decode. */
  ghost predicate LineSafe<T(!new)>(c: Codec<T>) {
    && AllFaithful(c)
    && (forall s :: c.dec(s).Some? ==> c.enc(c.dec(s).value).Some?)
    && (forall fs :: |fs| >= 2 && Fragments(c, fs) ==> c.dec(TrimSpace(Glue(fs))).None?)
  }

  // Reading in pieces.

  /** Everything before the cut is complete lines. */
  predicate AtLineStart(text: string) {
    text == "" || text[|text| - 1] == '\n'
  }

  /** Text cut at a line start reads piece by piece. */
  lemma {:induction false} ReadConcat<T>(a: string, b: string, c: Codec<T>)
    requires AtLineStart(a)
    ensures ReadText(a + b, c) == Chain(ReadText(a, c), ReadText(b, c))
    decreases |a|
  {
    if a == "" {
      assert a + b == b;
      ChainUnit(ReadText(b, c));
    } else {
      var i := IndexOf(a, '\n');
      NewlineInside(a, i);
      var rest := a[i + 1..];
      IndexOfIsPrefix(a, b, i);
      CutBeforeEnd(a, b, i);
      ReadFirstLine(a, i, c);
      ReadFirstLine(a + b, i, c);
      ReadConcat(rest, b, c);
      ChainAssoc(ReadLine(a[..i], c), ReadText(rest, c), ReadText(b, c));
    }
  }

  /** A text with a newline reads as its first line and then the rest. */
  lemma ReadFirstLine<T>(text: string, i: nat, c: Codec<T>)
    requires i < |text| && i == IndexOf(text, '\n')
    ensures ReadText(text, c) == Chain(ReadLine(text[..i], c), ReadText(text[i + 1..], c))
  {
  }

  lemma CutBeforeEnd(a: string, b: string, i: nat)
    requires i < |a|
    ensures (a + b)[..i] == a[..i] && (a + b)[i + 1..] == a[i + 1..] + b
  {
  }

  lemma NewlineInside(a: string, i: nat)
    requires a != "" && a[|a| - 1] == '\n' && i == IndexOf(a, '\n')
    ensures i < |a| && AtLineStart(a[i + 1..])
  {
  }

  lemma IndexOfIsPrefix(a: string, b: string, i: nat)
    requires i < |a| && i == IndexOf(a, '\n')
    ensures IndexOf(a + b, '\n') == i
  {
    assert forall k | 0 <= k <= i :: (a + b)[k] == a[k];
    IndexOfIs(a + b, '\n', i);
  }

  lemma ChainUnit<T>(r: Result<seq<T>, ReadError>)
    ensures Chain(Ok([]), r) == r && Chain(r, Ok([])) == r
  {
    if r.Ok? {
      assert [] + r.value == r.value && r.value + [] == r.value;
    }
  }

  lemma ChainAssoc<T>(a: Result<seq<T>, ReadError>, b: Result<seq<T>, ReadError>, r: Result<seq<T>, ReadError>)
    ensures Chain(a, Chain(b, r)) == Chain(Chain(a, b), r)
  {
    if a.Ok? && b.Ok? {
      ChainAssociates(a.value, b.value, r);
    }
  }

  /** A lone line, terminated or not, reads as that line. */
  lemma ReadSingle<T>(raw: string, c: Codec<T>)
    requires '\n' !in raw
    ensures ReadText(raw + "\n", c) == ReadLine(raw, c)
    ensures ReadText(raw, c) == ReadLine(raw, c)
  {
    var s := raw + "\n";
    IndexAfter(raw, '\n', "");
    assert s == raw + ['\n'] + "";
    assert s[..|raw|] == raw && s[|raw| + 1..] == "" && raw[..|raw|] == raw;
    ChainUnit(ReadLine(raw, c));
  }

  /** The unfinished last line of a text. */
  function Tail(text: string): string {
    if AtLineStart(text) then "" else Tail(text[..|text| - 1]) + [text[|text| - 1]]
  }

  /** The complete lines of a text. */
  function Head(text: string): string {
    if AtLineStart(text) then text else Head(text[..|text| - 1])
  }

  lemma {:induction false} HeadTail(text: string)
    ensures text == Head(text) + Tail(text)
    ensures AtLineStart(Head(text)) && '\n' !in Tail(text)
  {
    if AtLineStart(text) {
      assert text + "" == text;
    } else {
      var n := |text| - 1;
      assert text == text[..n] + [text[n]];
      HeadTail(text[..n]);
    }
  }

  /** A text cut after complete lines and before a newline-free rest is cut at its tail. */
  lemma {:induction false} TailIs(h: string, t: string)
    requires AtLineStart(h) && '\n' !in t
    ensures Tail(h + t) == t
    decreases |t|
  {
    if t == "" {
      assert h + t == h;
    } else {
      var n := |t| - 1;
      assert t == t[..n] + [t[n]];
      assert (h + t)[..|h + t| - 1] == h + t[..n];
      TailIs(h, t[..n]);
    }
  }

  lemma TailExtends(text: string, x: string)
    requires '\n' !in x
    ensures Tail(text + x) == Tail(text) + x
  {
    HeadTail(text);
    Regroup(Head(text), Tail(text), x, "");
    TailIs(Head(text), Tail(text) + x);
  }

  // Round trip.

  lemma ReadOwnLine<T(!new)>(v: T, c: Codec<T>)
    requires LineSafe(c) && c.enc(v).Some?
    ensures ReadText(LineOf(v, c), c) == if |c.enc(v).value| < 65536 then Ok([v]) else Err(LineTooLong)
  {
    var s := c.enc(v).value;
    assert Faithful(c, v);
    TrimNothing(s);
    ReadSingle(s, c);
  }

  lemma {:induction false} TextAtLineStart<T>(vs: seq<T>, c: Codec<T>)
    requires forall v | v in vs :: c.enc(v).Some?
    ensures AtLineStart(TextOf(vs, c))
  {
  }

  /** Every record fits the scanner's buffer. */
  ghost predicate AllShort<T>(vs: seq<T>, c: Codec<T>) {
    forall v | v in vs :: c.enc(v).Some? && |c.enc(v).value| < MAX_TOKEN
  }

  /** Reading after any sequence of completed appends returns exactly those records in order. */
  lemma {:induction false} ReadBack<T(!new)>(vs: seq<T>, c: Codec<T>)
    requires LineSafe(c) && AllShort(vs, c)
    ensures ReadText(TextOf(vs, c), c) == Ok(vs)
  {
    if vs != [] {
      var n := |vs| - 1;
      assert vs == vs[..n] + [vs[n]];
      ReadBack(vs[..n], c);
      TextAtLineStart(vs[..n], c);
      ReadConcat(TextOf(vs[..n], c), LineOf(vs[n], c), c);
      ReadOwnLine(vs[n], c);
    }
  }

  /** Reading after a crash tore the last append, at every byte: the completed records, those
      and the torn one when only its newline is missing, or an error; never another list. */
  lemma ReadTorn<T(!new)>(vs: seq<T>, w: T, k: nat, c: Codec<T>)
    requires LineSafe(c) && AllShort(vs + [w], c)
    requires k <= |c.enc(w).value|
    ensures var text := TextOf(vs, c) + c.enc(w).value[..k];
            ReadText(text, c) ==
              if k == 0 then Ok(vs)
              else if k == |c.enc(w).value| then Ok(vs + [w])
              else Err(LineUnparsable)
  {
    var s := c.enc(w).value;
    assert w in vs + [w] && forall v | v in vs :: v in vs + [w];
    ReadBack(vs, c);
    TextAtLineStart(vs, c);
    ReadConcat(TextOf(vs, c), s[..k], c);
    if k == 0 {
      assert vs + [] == vs;
    } else {
      ReadFragment(w, k, c);
    }
  }

  /** An unterminated fragment reads as its record when it is whole, and not at all otherwise. */
  lemma ReadFragment<T(!new)>(w: T, k: nat, c: Codec<T>)
    requires LineSafe(c) && c.enc(w).Some? && 0 < k <= |c.enc(w).value| < MAX_TOKEN
    ensures ReadText(c.enc(w).value[..k], c) ==
            if k == |c.enc(w).value| then Ok([w]) else Err(LineUnparsable)
  {
    var s := c.enc(w).value;
    assert Faithful(c, w);
    var p := s[..k];
    assert '\n' !in p;
    ReadSingle(p, c);
    if k == |s| {
      assert p == s;
      TrimNothing(s);
    } else {
      TrimOfPrefix(s, k);
      assert c.dec(s[..|TrimSpace(p)|]).None?;
    }
  }

  /** Trimming a prefix of a line that begins with a visible byte gives a shorter prefix. */
  lemma TrimOfPrefix(s: string, k: nat)
    requires 0 < k <= |s| && !IsSpace(s[0])
    ensures var t := TrimSpace(s[..k]); 0 < |t| <= k && t == s[..|t|]
  {
    var p := s[..k];
    assert p[0] == s[0];
    assert TrimSpace(p) == TrimRight(p);
    TrimRightIsPrefix(p);
    var t := TrimRight(p);
    assert t == s[..k][..|t|];
  }

  lemma {:induction false} TrimRightIsPrefix(p: string)
    requires p != "" && !IsSpace(p[0])
    ensures var t := TrimRight(p); 0 < |t| <= |p| && t == p[..|t|]
  {
    if IsSpace(p[|p| - 1]) {
      var q := p[..|p| - 1];
      TrimRightIsPrefix(q);
      assert TrimRight(q) == q[..|TrimRight(q)|] == p[..|TrimRight(q)|];
    } else {
      assert p[..|p|] == p;
    }
  }

  // Appending to a damaged file.

  /** The unfinished last line, if any, is what interrupted appends leave. */
  ghost predicate TailSound<T(!new)>(text: string, c: Codec<T>) {
    exists fs :: Fragments(c, fs) && Tail(text) == Glue(fs)
  }

  lemma GlueOne(fs: seq<string>, f: string)
    ensures Glue(fs + [f]) == Glue(fs) + f
  {
    assert (fs + [f])[..|fs|] == fs;
  }

  lemma SoundExtends<T(!new)>(text: string, g: string, c: Codec<T>)
    requires TailSound(text, c) && Fragment(c, g) && '\n' !in g
    ensures TailSound(text + g, c)
  {
    var fs :| Fragments(c, fs) && Tail(text) == Glue(fs);
    TailExtends(text, g);
    GlueOne(fs, g);
    assert Fragments(c, fs + [g]);
  }

  /** Appends keep the tail sound, whatever fault interrupts them. */
  lemma AppendKeepsSound<T(!new)>(f: File, v: T, c: Codec<T>, fault: WriteFault)
    requires LineSafe(c) && TailSound(Content(f), c)
    ensures TailSound(Content(AppendNDJSON(f, v, c, fault).0), c)
  {
    var text, x := Content(f), Written(v, c, fault);
    if x == "" {
      assert text + x == text;
    } else {
      var g := WrittenFragment(c, v, x);
      if x == g {
        SoundExtends(text, g, c);
      } else {
        assert (text + x)[|text + x| - 1] == '\n';
        assert Fragments(c, []) && Tail(text + x) == Glue([]);
      }
    }
  }

  /** Two or more fragments on one line: the line is refused. */
  lemma GluedLineRefused<T(!new)>(c: Codec<T>, fs: seq<string>)
    requires LineSafe(c) && |fs| >= 2 && Fragments(c, fs)
    ensures ReadLine(Glue(fs), c).Err?
  {
    GlueVisible(c, fs);
    TrimOfPrefix(Glue(fs), |Glue(fs)|);
    assert Glue(fs)[..|Glue(fs)|] == Glue(fs);
  }

  lemma FragmentVisible<T(!new)>(c: Codec<T>, s: string)
    requires AllFaithful(c) && Fragment(c, s)
    ensures s != "" && !IsSpace(s[0]) && '\n' !in s
  {
    var v :| c.enc(v).Some? && s != "" && s <= c.enc(v).value;
    assert Faithful(c, v);
    assert s == c.enc(v).value[..|s|];
  }

  lemma {:induction false} GlueVisible<T(!new)>(c: Codec<T>, fs: seq<string>)
    requires AllFaithful(c) && fs != [] && Fragments(c, fs)
    ensures Glue(fs) != "" && !IsSpace(Glue(fs)[0])
  {
    var n := |fs| - 1;
    FragmentVisible(c, fs[n]);
    if n > 0 {
      GlueVisible(c, fs[..n]);
    } else {
      assert Glue(fs[..n]) == "";
    }
  }

  /** However an interrupted append ends, what can be read on its own is its record. */
  lemma FragmentReads<T(!new)>(w: T, k: nat, c: Codec<T>)
    requires LineSafe(c) && c.enc(w).Some? && 0 < k <= |c.enc(w).value|
    ensures var r := ReadText(c.enc(w).value[..k], c); r.Ok? ==> r.value == [w]
  {
    var p := c.enc(w).value[..k];
    assert Faithful(c, w);
    assert '\n' !in p;
    ReadSingle(p, c);
    if |p| < MAX_TOKEN && |c.enc(w).value| < MAX_TOKEN {
      ReadFragment(w, k, c);
    } else if |p| < MAX_TOKEN {
      TrimOfPrefix(c.enc(w).value, k);
      assert c.dec(c.enc(w).value[..|TrimSpace(p)|]).None?;
    }
  }

  /** A refused line, terminated or not, refuses the text that ends in it. */
  lemma BadLineRefused<T>(head: string, raw: string, c: Codec<T>)
    requires AtLineStart(head) && '\n' !in raw && ReadLine(raw, c).Err?
    ensures ReadText(head + raw, c).Err?
    ensures ReadText(head + (raw + "\n"), c).Err?
  {
    ReadSingle(raw, c);
    ReadConcat(head, raw, c);
    ReadConcat(head, raw + "\n", c);
  }

  /** A fragment written onto an unfinished line gives a line that is refused. */
  lemma GluedIsRefused<T(!new)>(c: Codec<T>, fs: seq<string>, f: string)
    requires LineSafe(c) && fs != [] && Fragments(c, fs) && Fragment(c, f)
    ensures ReadLine(Glue(fs) + f, c).Err?
  {
    GlueOne(fs, f);
    GluedLineRefused(c, fs + [f]);
  }

  /** What one append may write of a record, seen as a fragment of its line. */
  lemma WrittenFragment<T(!new)>(c: Codec<T>, v: T, x: string) returns (f: string)
    requires LineSafe(c) && c.enc(v).Some? && x != "" && |x| <= |LineOf(v, c)| && x == LineOf(v, c)[..|x|]
    ensures Fragment(c, f) && '\n' !in f && (x == f || x == f + "\n")
  {
    var s := c.enc(v).value;
    assert Faithful(c, v);
    f := if x == LineOf(v, c) then s else x;
    if x != LineOf(v, c) {
      assert x == s[..|x|];
    }
    assert c.enc(v).Some? && f != "" && f <= s;
  }

  /** The effect of one append on what can be read, for every fault: the log reads as before,
      or with the record at the end, or it cannot be read at all. After a success the record
      is there or the log cannot be read. */
  lemma AppendOutcome<T(!new)>(f: File, v: T, c: Codec<T>, fault: WriteFault)
    requires LineSafe(c) && TailSound(Content(f), c)
    ensures var (f', err) := AppendNDJSON(f, v, c, fault);
            var before, after := ReadFile(f, c), ReadFile(f', c);
            && (after.Ok? ==> before.Ok? && (after.value == before.value + [v]
                                             || (err.Some? && after.value == before.value)))
            && (err.None? ==> AtLineStart(Content(f')))
  {
    ExtendOutcome(Content(f), Written(v, c, fault), v, c);
    if AppendNDJSON(f, v, c, fault).1.None? {
      EndsInNewline(Content(f), c.enc(v).value);
    }
  }

  lemma EndsInNewline(text: string, s: string)
    ensures AtLineStart(text + (s + "\n")) && s + "\n" != ""
  {
  }

  lemma ExtendOutcome<T(!new)>(text: string, x: string, v: T, c: Codec<T>)
    requires LineSafe(c) && TailSound(text, c)
    requires x == "" || (c.enc(v).Some? && |x| <= |LineOf(v, c)| && x == LineOf(v, c)[..|x|])
    ensures var before, after := ReadText(text, c), ReadText(text + x, c);
            after.Ok? ==> before.Ok? && after.value == if x == "" then before.value else before.value + [v]
  {
    if x == "" {
      assert text + x == text;
    } else {
      HeadTail(text);
      if Tail(text) == "" {
        assert Head(text) + "" == Head(text);
        AppendAtLineStart(text, x, v, c);
      } else {
        AppendToUnfinished(text, x, v, c);
      }
    }
  }

  lemma AppendAtLineStart<T(!new)>(text: string, x: string, v: T, c: Codec<T>)
    requires LineSafe(c) && AtLineStart(text) && c.enc(v).Some?
    requires x != "" && |x| <= |LineOf(v, c)| && x == LineOf(v, c)[..|x|]
    ensures var r := ReadText(text + x, c);
            r.Ok? ==> ReadText(text, c).Ok? && r.value == ReadText(text, c).value + [v]
  {
    ReadConcat(text, x, c);
    var s := c.enc(v).value;
    if x == LineOf(v, c) {
      ReadOwnLine(v, c);
    } else {
      assert x == s[..|x|];
      FragmentReads(v, |x|, c);
    }
  }

  lemma AppendToUnfinished<T(!new)>(text: string, x: string, v: T, c: Codec<T>)
    requires LineSafe(c) && TailSound(text, c) && Tail(text) != "" && c.enc(v).Some?
    requires x != "" && |x| <= |LineOf(v, c)| && x == LineOf(v, c)[..|x|]
    ensures ReadText(text + x, c).Err?
  {
    HeadTail(text);
    var fs :| Fragments(c, fs) && Tail(text) == Glue(fs);
    var f := WrittenFragment(c, v, x);
    GluedIsRefused(c, fs, f);
    BadLineRefused(Head(text), Tail(text) + f, c);
    Regroup(Head(text), Tail(text), f, "\n");
  }

  lemma Regroup(a: string, b: string, x: string, y: string)
    ensures (a + b) + (x + y) == a + ((b + x) + y)
    ensures (a + b) + x == a + (b + x)
  {
  }

  /** Text read at a line start stays a prefix of whatever is read later. */
  lemma EarlierLinesStay<T>(a: string, text: string, c: Codec<T>)
    requires AtLineStart(a) && a <= text
    ensures ReadText(text, c).Ok? ==> ReadText(a, c).Ok? && ReadText(a, c).value <= ReadText(text, c).value
  {
    assert text == a + text[|a|..];
    ReadConcat(a, text[|a|..], c);
  }

  /** The record cannot be read away: some run of complete lines holds it or is unreadable. */
  ghost predicate Sealed<T>(text: string, v: T, c: Codec<T>) {
    exists n | 0 <= n <= |text| ::
      && AtLineStart(text[..n])
      && (ReadText(text[..n], c).Ok? ==> v in ReadText(text[..n], c).value)
  }

  lemma SealedIsRead<T>(text: string, v: T, c: Codec<T>)
    requires Sealed(text, v, c)
    ensures ReadText(text, c).Ok? ==> v in ReadText(text, c).value
  {
    var n :| 0 <= n <= |text| && AtLineStart(text[..n])
             && (ReadText(text[..n], c).Ok? ==> v in ReadText(text[..n], c).value);
    EarlierLinesStay(text[..n], text, c);
  }

  lemma SealedGrows<T>(text: string, text': string, v: T, c: Codec<T>)
    requires Sealed(text, v, c) && text <= text'
    ensures Sealed(text', v, c)
  {
    var n :| 0 <= n <= |text| && AtLineStart(text[..n])
             && (ReadText(text[..n], c).Ok? ==> v in ReadText(text[..n], c).value);
    assert text'[..n] == text[..n];
  }

  /** A successful append seals its record, even onto a damaged file. */
  lemma AppendSeals<T(!new)>(f: File, v: T, c: Codec<T>, fault: WriteFault)
    requires LineSafe(c) && TailSound(Content(f), c)
    requires AppendNDJSON(f, v, c, fault).1.None?
    ensures Sealed(Content(AppendNDJSON(f, v, c, fault).0), v, c)
  {
    var text' := Content(AppendNDJSON(f, v, c, fault).0);
    AppendOutcome(f, v, c, fault);
    assert text'[..|text'|] == text';
  }

  // The hypotheses can be met.

  predicate IsPlain(c: char) {
    c != '{' && c != '}' && !IsSpace(c)
  }

  predicate AllPlain(s: string) {
    forall k | 0 <= k < |s| :: IsPlain(s[k])
  }

  /** Plain texts, each between two braces. */
  function Braced(): Codec<string> {
    Codec((v: string) => if AllPlain(v) then Some("{" + v + "}") else None,
          (s: string) => if IsBraced(s) then Some(s[1..|s| - 1]) else None)
  }

  predicate IsBraced(s: string) {
    |s| >= 2 && s[0] == '{' && s[|s| - 1] == '}' && AllPlain(s[1..|s| - 1])
  }

  /** A codec with unboundedly many records that meets every hypothesis. */
  lemma BracedIsLineSafe()
    ensures LineSafe(Braced())
    ensures forall v | AllPlain(v) :: Braced().enc(v).Some?
  {
    var c := Braced();
    forall v | c.enc(v).Some?
      ensures Faithful(c, v)
    {
      BracedFaithful(v);
    }
    forall fs | |fs| >= 2 && Fragments(c, fs)
      ensures c.dec(TrimSpace(Glue(fs))).None?
    {
      GluedBracesRefused(fs);
    }
  }

  lemma GluedBracesRefused(fs: seq<string>)
    requires |fs| >= 2 && Fragments(Braced(), fs)
    ensures !IsBraced(TrimSpace(Glue(fs)))
  {
    GluedBraces(fs);
    var g := Glue(fs);
    TrimNothing(g);
    var k :| 0 < k < |g| && g[k] == '{';
    InnerBrace(g, k);
  }

  lemma InnerBrace(g: string, k: nat)
    requires 0 < k < |g| && g[k] == '{'
    ensures !IsBraced(g)
  {
    if k < |g| - 1 {
      assert g[1..|g| - 1][k - 1] == '{';
    }
  }

  lemma BracedFaithful(v: string)
    requires AllPlain(v)
    ensures Faithful(Braced(), v)
  {
    var s := "{" + v + "}";
    assert s[1..|s| - 1] == v;
    forall k | 0 <= k < |s|
      ensures !IsBraced(s[..k])
    {
      if k >= 2 {
        assert s[..k][k - 1] == v[k - 2];
      }
    }
  }

  /** Every fragment starts with a brace and holds no space, so run together they hold one
      brace too many. */
  lemma {:induction false} GluedBraces(fs: seq<string>)
    requires fs != [] && Fragments(Braced(), fs)
    ensures var g := Glue(fs); g != "" && forall k | 0 <= k < |g| :: !IsSpace(g[k])
    ensures |fs| >= 2 ==> exists k :: 0 < k < |Glue(fs)| && Glue(fs)[k] == '{'
  {
    var n := |fs| - 1;
    var g, last := Glue(fs[..n]), fs[n];
    BracedFragment(last);
    assert Glue(fs) == g + last;
    if n > 0 {
      GluedBraces(fs[..n]);
      assert Glue(fs)[|g|] == '{';
    }
  }

  lemma BracedFragment(s: string)
    requires Fragment(Braced(), s)
    ensures s != "" && s[0] == '{' && forall k | 0 <= k < |s| :: !IsSpace(s[k])
  {
    var v :| Braced().enc(v).Some? && s != "" && s <= Braced().enc(v).value;
    var t := "{" + v + "}";
    assert forall k | 0 <= k < |s| :: s[k] == t[k];
  }
}
