/**
  The file format that OSCQuery_recorder writes and OSC_playback reads: a header that lists the
  recorded addresses, then one message after the other.
 */
module OscDump {
  import opened Common

  /** A line of the header: an OSC address, its typetag, and the size of its messages. */
  datatype Entry = Entry(name: seq<Byte>, tag: seq<Byte>, size: nat)

  /** What the recorder is told of one message; `data` holds the four bytes of a float. */
  datatype Message = Message(index: nat, timestamp: nat, data: seq<Byte>)

  /** What the player pushes: the index of the parameter and the bytes of the value. */
  datatype Push = Push(index: nat, data: seq<Byte>)

  const TWO_32: int := 0x1_0000_0000
  const TWO_31: int := 0x8000_0000

  /** What was read with more in front of it. */
  function Behind<A, B>(front: seq<A>, r: Option<(seq<A>, B)>): Option<(seq<A>, B)> {
    match r
    case None => None
    case Some((s, x)) => Some((front + s, x))
  }

  lemma BehindNothing<A, B>(r: Option<(seq<A>, B)>)
    ensures Behind([], r) == r
  {
    if r.Some? {
      assert [] + r.value.0 == r.value.0;
    }
  }

  lemma BehindTwice<A, B>(a: seq<A>, b: seq<A>, r: Option<(seq<A>, B)>)
    ensures Behind(a, Behind(b, r)) == Behind(a + b, r)
  {
    if r.Some? {
      assert a + (b + r.value.0) == a + b + r.value.0;
    }
  }

  // ------------------------------------------------------------------ little endian

  function Le32(n: nat): (r: seq<Byte>)
    ensures |r| == 4
  {
    [n % 256, n / 256 % 256, n / 65536 % 256, n / 16777216 % 256]
  }

  function FromLe32(b: seq<Byte>): (n: nat)
    requires |b| == 4
    ensures n < TWO_32
  {
    b[0] as int + 256 * (b[1] as int) + 65536 * (b[2] as int) + 16777216 * (b[3] as int)
  }

  lemma Le32RoundTrip(n: nat)
    requires n < TWO_32
    ensures FromLe32(Le32(n)) == n
  {
    assert n / 65536 == n / 256 / 256 && n / 16777216 == n / 65536 / 256;
  }

  function Le64(n: nat): (r: seq<Byte>)
    ensures |r| == 8
    ensures n < TWO_32 ==> r[..4] == Le32(n)
  {
    Le32(n % TWO_32) + Le32(n / TWO_32)
  }

  // ------------------------------------------------------------------ writing

  function Zeros(n: nat): (r: seq<Byte>)
    ensures |r| == n && forall i :: 0 <= i < n ==> r[i] == 0
  {
    seq(n, _ => 0)
  }

  /** The bytes missing to a multiple of four. */
  function Missing(n: nat): (r: nat)
    ensures r < 4 && (n + r) % 4 == 0
  {
    (4 - n % 4) % 4
  }

  /** A string as it stands in the file: ended by a zero and padded. */
  function Padded(s: seq<Byte>): (r: seq<Byte>)
    ensures |r| % 4 == 0
  {
    s + [0] + Zeros(Missing(|s| + 1))
  }

  function EntryBytes(e: Entry): (r: seq<Byte>)
    ensures |r| % 4 == 0
  {
    SumOfFours(|Padded(e.name)|, |Padded(e.tag)|);
    Padded(e.name) + Padded(e.tag) + Le32(e.size)
  }

  lemma SumOfFours(a: nat, b: nat)
    requires a % 4 == 0 && b % 4 == 0
    ensures (a + b + 4) % 4 == 0
  {
  }

  function EntriesBytes(es: seq<Entry>): seq<Byte> {
    if es == [] then [] else EntryBytes(es[0]) + EntriesBytes(es[1..])
  }

  lemma {:induction false} EntriesAligned(es: seq<Entry>)
    ensures |EntriesBytes(es)| % 4 == 0
  {
    hide EntryBytes;
    if es != [] {
      EntriesAligned(es[1..]);
    }
  }

  const MAGIC: seq<Byte> := [79, 83, 67, 82]   // "OSCR"

  function Header(es: seq<Entry>): seq<Byte> {
    MAGIC + Le32(|es|) + EntriesBytes(es)
  }

  function MessageBytes(m: Message): seq<Byte> {
    Le64(m.index) + Le64(m.timestamp) + m.data
  }

  function MessagesBytes(ms: seq<Message>): seq<Byte> {
    if ms == [] then [] else MessageBytes(ms[0]) + MessagesBytes(ms[1..])
  }

  // ------------------------------------------------------------------ reading

  /** A string up to its zero, and what follows the zero. */
  function CString(rest: seq<Byte>): (r: Option<(seq<Byte>, seq<Byte>)>)
    ensures r.Some? ==> |r.value.0| + 1 + |r.value.1| == |rest|
  {
    if rest == [] then None
    else if rest[0] == 0 then Some(([], rest[1..]))
    else Behind([rest[0]], CString(rest[1..]))
  }

  /** Skips zeros, but no more than `k` of them. */
  function SkipZeros(rest: seq<Byte>, k: nat): (r: seq<Byte>)
    ensures |r| <= |rest|
  {
    if rest != [] && rest[0] == 0 && k > 0 then SkipZeros(rest[1..], k - 1) else rest
  }

  /** An entry and what follows it; None when the file ends too early. */
  function ReadEntry(rest: seq<Byte>): (r: Option<(Entry, seq<Byte>)>)
    ensures r.Some? ==> |r.value.1| < |rest|
  {
    match CString(rest)
    case None => None
    case Some((name, named)) => ReadTag(name, named)
  }

  /** The tag is read if the boundary is not followed by a zero. */
  function ReadTag(name: seq<Byte>, rest: seq<Byte>): (r: Option<(Entry, seq<Byte>)>)
    ensures r.Some? ==> |r.value.1| < |rest|
  {
    var after := SkipZeros(rest, 3);
    if after == [] then None
    else if after[0] == 0 then ReadSize(name, [], after)
    else match CString(after)
      case None => None
      case Some((tag, tagged)) => ReadSize(name, tag, tagged)
  }

  function ReadSize(name: seq<Byte>, tag: seq<Byte>, rest: seq<Byte>): (r: Option<(Entry, seq<Byte>)>)
    ensures r.Some? ==> |r.value.1| < |rest|
  {
    var after := SkipZeros(rest, 3);
    if |after| < 4 then None else Some((Entry(name, tag, FromLe32(after[..4])), after[4..]))
  }

  function ReadEntries(rest: seq<Byte>, count: nat): Option<(seq<Entry>, seq<Byte>)>
    decreases count
  {
    if count == 0 then Some(([], rest))
    else match ReadEntry(rest)
      case None => None
      case Some((e, after)) => Behind([e], ReadEntries(after, count - 1))
  }

  /** A file without the magic number has no entries; a negative count reads none. */
  function ParseHeader(file: seq<Byte>): Option<(seq<Entry>, seq<Byte>)> {
    if |file| < 8 then None
    else if file[..4] != MAGIC then Some(([], file))
    else
      var count := FromLe32(file[4..8]);
      ReadEntries(file[8..], if count < TWO_31 then count else 0)
  }

  /** How many bytes of data the player reads for a typetag; none for those it does not know. */
  function DataSize(tag: seq<Byte>): nat {
    if tag == [102] || tag == [105] then 4                 // "f", "i"
    else if tag == [98] then 1                             // "b"
    else if tag == [102, 102] then 8
    else if tag == [102, 102, 102] then 12
    else if tag == [102, 102, 102, 102] then 16
    else 0
  }

  function Pushed(index: nat, n: nat, rest: seq<Byte>): seq<Push>
    requires |rest| >= 16 + n
  {
    if n == 0 then [] else [Push(index, rest[16..16 + n])]
  }

  /** The loop over the messages: what is pushed, and by how many bytes the last message went
      beyond the end.  None where the player reads outside of the file or of the entries, or
      would read the same message for ever. */
  function Replayed(rest: seq<Byte>, es: seq<Entry>): Option<(seq<Push>, nat)>
    decreases |rest|
  {
    if rest == [] then Some(([], 0))
    else if |rest| < 4 || FromLe32(rest[..4]) >= |es| || es[FromLe32(rest[..4])].size == 0 then None
    else
      var index := FromLe32(rest[..4]);
      var n, size := DataSize(es[index].tag), es[index].size;
      if |rest| < 16 + n then None
      else Behind(Pushed(index, n, rest),
                  if size <= |rest| then Replayed(rest[size..], es) else Some(([], size - |rest|)))
  }

  // ------------------------------------------------------------------ the round trip

  predicate NulFree(s: seq<Byte>) {
    forall i :: 0 <= i < |s| ==> s[i] != 0
  }

  /** An entry as the recorder makes it: index, timestamp and up to four floats. */
  predicate Recordable(e: Entry) {
    NulFree(e.name) && NulFree(e.tag) && 16 <= e.size <= 32
  }

  /** The padding of the name and the empty tag are seven zeros, of which six are skipped. */
  predicate Misread(e: Entry) {
    e.tag == [] && |e.name| % 4 == 0
  }

  lemma {:induction false} CStringReads(s: seq<Byte>, after: seq<Byte>)
    requires NulFree(s)
    ensures CString(s + [0] + after) == Some((s, after))
  {
    var rest := s + [0] + after;
    if s == [] {
      assert rest[1..] == after;
    } else {
      CStringReads(s[1..], after);
      assert rest[1..] == s[1..] + [0] + after;
      assert [s[0]] + s[1..] == s;
    }
  }

  lemma {:induction false} SkipZerosSkips(n: nat, k: nat, after: seq<Byte>)
    requires after != [] && after[0] != 0
    ensures SkipZeros(Zeros(n) + after, k) == Zeros(if n <= k then 0 else n - k) + after
    decreases n
  {
    if n > 0 && k > 0 {
      assert (Zeros(n) + after)[1..] == Zeros(n - 1) + after;
      SkipZerosSkips(n - 1, k - 1, after);
    }
  }

  /** The size behind up to three zeros. */
  lemma SizeReads(name: seq<Byte>, tag: seq<Byte>, n: nat, size: nat, after: seq<Byte>)
    requires 16 <= size <= 32
    ensures n <= 3 ==> ReadSize(name, tag, Zeros(n) + Le32(size) + after) == Some((Entry(name, tag, size), after))
    ensures n == 4 ==>
      var r := ReadSize(name, tag, Zeros(n) + Le32(size) + after);
      r.Some? && r.value.0.size % 256 == 0
  {
    var rest := Le32(size) + after;
    assert Zeros(n) + Le32(size) + after == Zeros(n) + rest;
    SkipZerosSkips(n, 3, rest);
    Le32RoundTrip(size);
    if n <= 3 {
      assert Zeros(0) + rest == rest && rest[..4] == Le32(size) && rest[4..] == after;
    } else if n == 4 {
      assert (Zeros(1) + rest)[0] == 0;
    }
  }

  /** A tag that is not empty, behind the padding of the name. */
  lemma TagReads(e: Entry, p: nat, after: seq<Byte>)
    requires Recordable(e) && e.tag != [] && p <= 3
    ensures ReadTag(e.name, Zeros(p) + Padded(e.tag) + Le32(e.size) + after) == Some((e, after))
  {
    var q := Missing(|e.tag| + 1);
    var tagged := Zeros(q) + Le32(e.size) + after;
    var rest := e.tag + [0] + tagged;
    assert Zeros(p) + Padded(e.tag) + Le32(e.size) + after == Zeros(p) + rest;
    SkipZerosSkips(p, 3, rest);
    assert Zeros(0) + rest == rest;
    CStringReads(e.tag, tagged);
    SizeReads(e.name, e.tag, q, e.size, after);
  }

  /** An empty tag adds four zeros to the padding of the name. */
  lemma NoTagReads(e: Entry, p: nat, after: seq<Byte>)
    requires Recordable(e) && e.tag == [] && p <= 3
    ensures var r := ReadTag(e.name, Zeros(p) + Padded(e.tag) + Le32(e.size) + after);
            if p < 3 then r == Some((e, after)) else r.Some? && r.value.0.size % 256 == 0
  {
    var end := Le32(e.size) + after;
    assert Zeros(p) + Padded(e.tag) + Le32(e.size) + after == Zeros(p + 4) + end;
    SkipZerosSkips(p + 4, 3, end);
    assert (Zeros(p + 1) + end)[0] == 0;
    assert Zeros(p + 1) + end == Zeros(p + 1) + Le32(e.size) + after;
    SizeReads(e.name, [], p + 1, e.size, after);
  }

  lemma EntryStarts(e: Entry, after: seq<Byte>)
    ensures EntryBytes(e) + after
         == e.name + [0] + (Zeros(Missing(|e.name| + 1)) + Padded(e.tag) + Le32(e.size) + after)
  {
    hide Le32, Missing, Zeros;
    var a, b, c, d := e.name + [0], Zeros(Missing(|e.name| + 1)), Padded(e.tag), Le32(e.size);
    assert a + b + c + d + after == a + (b + c + d + after);
  }

  lemma EntryReads(e: Entry, after: seq<Byte>)
    requires Recordable(e)
    ensures !Misread(e) ==> ReadEntry(EntryBytes(e) + after) == Some((e, after))
    ensures Misread(e) ==>
      var r := ReadEntry(EntryBytes(e) + after);
      r.Some? && r.value.0.size != e.size
  {
    hide ReadTag, CString, EntryBytes, Padded, Le32, NulFree;
    var p := Missing(|e.name| + 1);
    var named := Zeros(p) + Padded(e.tag) + Le32(e.size) + after;
    EntryStarts(e, after);
    CStringReads(e.name, named);
    if e.tag != [] {
      TagReads(e, p, after);
    } else {
      NoTagReads(e, p, after);
    }
  }

  /** Reading back what was written gives the same entries and ends at the same place, if and
      only if no entry combines an empty tag with a name whose length is a multiple of four. */
  lemma {:induction false} EntriesRead(es: seq<Entry>, after: seq<Byte>)
    requires forall i :: 0 <= i < |es| ==> Recordable(es[i])
    ensures ReadEntries(EntriesBytes(es) + after, |es|) == Some((es, after))
        <==> forall i :: 0 <= i < |es| ==> !Misread(es[i])
  {
    hide ReadEntry, EntryBytes, Misread, Recordable;
    if es == [] {
      assert EntriesBytes(es) + after == after;
    } else {
      var more := EntriesBytes(es[1..]) + after;
      assert EntriesBytes(es) + after == EntryBytes(es[0]) + more;
      EntryReads(es[0], more);
      EntriesRead(es[1..], after);
      assert es == [es[0]] + es[1..];
      assert forall i :: 0 < i < |es| ==> es[i] == es[1..][i - 1];
    }
  }

  lemma HeaderParts(es: seq<Entry>, after: seq<Byte>)
    ensures var file := Header(es) + after;
            |file| >= 8 && file[..4] == MAGIC && file[4..8] == Le32(|es|) && file[8..] == EntriesBytes(es) + after
  {
    hide EntriesBytes, Le32;
  }

  lemma HeaderIsParsed(es: seq<Entry>, after: seq<Byte>)
    requires |es| < TWO_32
    ensures ParseHeader(Header(es) + after)
         == ReadEntries(EntriesBytes(es) + after, if |es| < TWO_31 then |es| else 0)
  {
    hide Header, EntriesBytes, ReadEntries, Le32, FromLe32;
    HeaderParts(es, after);
    Le32RoundTrip(|es|);
  }

  lemma HeaderRoundTrip(es: seq<Entry>, after: seq<Byte>)
    requires |es| < TWO_31 && forall i :: 0 <= i < |es| ==> Recordable(es[i])
    ensures ParseHeader(Header(es) + after) == Some((es, after))
        <==> forall i :: 0 <= i < |es| ==> !Misread(es[i])
  {
    hide ParseHeader, Header, ReadEntries, EntriesBytes;
    HeaderIsParsed(es, after);
    EntriesRead(es, after);
  }

  /** The typetags of an int, of a float, and of two, three or four floats. */
  predicate NumberTag(tag: seq<Byte>) {
    tag == [105] || (1 <= |tag| <= 4 && forall i :: 0 <= i < |tag| ==> tag[i] == 102)
  }

  /** The values of these are four bytes for each letter; that of the tag of a blob is taken to be
      one byte, and those of all others are skipped. */
  lemma NumberSize(tag: seq<Byte>)
    ensures DataSize(tag) == if NumberTag(tag) then 4 * |tag| else if tag == [98] then 1 else 0
  {
    if NumberTag(tag) && tag != [105] {
      assert tag == [102] || tag == [102, 102] || tag == [102, 102, 102] || tag == [102, 102, 102, 102];
    }
  }

  /** A message of such a parameter. */
  predicate NumberMessage(m: Message, es: seq<Entry>) {
    && m.index < |es| && NumberTag(es[m.index].tag)
    && es[m.index].size == 16 + 4 * |es[m.index].tag| && |m.data| == 4 * |es[m.index].tag|
  }

  function PushOf(m: Message): Push {
    Push(m.index, m.data)
  }

  function Pushes(ms: seq<Message>): seq<Push> {
    seq(|ms|, i requires 0 <= i < |ms| => PushOf(ms[i]))
  }

  /** The number of the parameter and the time stand in front of the value, eight bytes each and
      the lowest first. */
  lemma MessageLayout(m: Message)
    requires m.index < TWO_32 * TWO_32 && m.timestamp < TWO_32 * TWO_32
    ensures var b := MessageBytes(m);
            && |b| == 16 + |m.data| && b[16..] == m.data
            && FromLe32(b[..4]) + TWO_32 * FromLe32(b[4..8]) == m.index
            && FromLe32(b[8..12]) + TWO_32 * FromLe32(b[12..16]) == m.timestamp
  {
    hide Le32, FromLe32;
    var b := MessageBytes(m);
    Le32RoundTrip(m.index % TWO_32);
    Le32RoundTrip(m.index / TWO_32);
    Le32RoundTrip(m.timestamp % TWO_32);
    Le32RoundTrip(m.timestamp / TWO_32);
    assert b[..4] == Le32(m.index % TWO_32) && b[4..8] == Le32(m.index / TWO_32);
    assert b[8..12] == Le32(m.timestamp % TWO_32) && b[12..16] == Le32(m.timestamp / TWO_32);
  }

  /** The first of the messages is read and pushed. */
  lemma FirstMessage(ms: seq<Message>, es: seq<Entry>)
    requires |es| < TWO_31 && ms != [] && NumberMessage(ms[0], es)
    ensures Replayed(MessagesBytes(ms), es) == Behind([PushOf(ms[0])], Replayed(MessagesBytes(ms[1..]), es))
  {
    hide Le32, FromLe32, Le64, DataSize, NumberTag;
    var m, rest, n := ms[0], MessagesBytes(ms), |ms[0].data|;
    NumberSize(es[m.index].tag);
    Le32RoundTrip(m.index);
    assert rest[..4] == Le64(m.index)[..4] == Le32(m.index);
    assert rest[16..16 + n] == m.data && rest[16 + n..] == MessagesBytes(ms[1..]);
    assert n > 0 by { TagHasLetters(es[m.index].tag); }
  }

  lemma TagHasLetters(tag: seq<Byte>)
    requires NumberTag(tag)
    ensures |tag| > 0
  {
  }

  lemma PushesCons(ms: seq<Message>)
    ensures Pushes(ms) == if ms == [] then [] else [PushOf(ms[0])] + Pushes(ms[1..])
  {
  }

  lemma NothingReplayed(es: seq<Entry>)
    ensures Replayed([], es) == Some(([], 0))
  {
  }

  /** The messages of such parameters are replayed as they were recorded, to the last byte. */
  lemma {:induction false} MessagesReplay(ms: seq<Message>, es: seq<Entry>)
    requires |es| < TWO_31 && forall i :: 0 <= i < |ms| ==> NumberMessage(ms[i], es)
    ensures Replayed(MessagesBytes(ms), es) == Some((Pushes(ms), 0))
  {
    hide NumberMessage, MessageBytes, Replayed, Pushes, PushOf;
    PushesCons(ms);
    if ms == [] {
      NothingReplayed(es);
    } else {
      FirstMessage(ms, es);
      MessagesReplay(ms[1..], es);
    }
  }

  /** What the player does with a whole file. */
  function Play(file: seq<Byte>): Option<(seq<Push>, nat)> {
    match ParseHeader(file)
    case None => None
    case Some((es, rest)) => Replayed(rest, es)
  }

  /** Playing back a recording. */
  lemma PlaybackOfRecording(es: seq<Entry>, ms: seq<Message>)
    requires |es| < TWO_31 && forall i :: 0 <= i < |es| ==> Recordable(es[i]) && !Misread(es[i])
    requires forall i :: 0 <= i < |ms| ==> NumberMessage(ms[i], es)
    ensures Play(Header(es) + MessagesBytes(ms)) == Some((Pushes(ms), 0))
  {
    HeaderRoundTrip(es, MessagesBytes(ms));
    MessagesReplay(ms, es);
  }

  /** The number of lines is read as a signed int: of a header with more lines none is read. */
  lemma TooManyLines(es: seq<Entry>, after: seq<Byte>)
    requires TWO_31 <= |es| < TWO_32
    ensures ParseHeader(Header(es) + after) == Some(([], EntriesBytes(es) + after))
  {
    hide ParseHeader, Header, EntriesBytes;
    HeaderIsParsed(es, after);
  }

  /** A file that does not begin like a recording has no entries, and the player reads outside of
      them, or of the file. */
  lemma NoRecording(file: seq<Byte>)
    requires !(MAGIC <= file)
    ensures Play(file) == None
  {
    if |file| >= 8 {
      assert file[..4] != MAGIC;
    }
  }

  // ------------------------------------------------------------------ ... and exactly when

  /** What is read of an entry of the kind that is misread: the size is taken one byte too early. */
  lemma MisreadEntry(e: Entry, after: seq<Byte>)
    requires Recordable(e) && Misread(e)
    ensures ReadEntry(EntryBytes(e) + after) == Some((Entry(e.name, [], 256 * e.size), [0] + after))
  {
    hide CString, EntryBytes, Padded, NulFree, ReadSize;
    var p := Missing(|e.name| + 1);
    EntryStarts(e, after);
    CStringReads(e.name, Zeros(p) + Padded(e.tag) + Le32(e.size) + after);
    var end := Le32(e.size) + after;
    assert Padded(e.tag) == Zeros(4) by { EmptyPadded(); }
    assert Zeros(p) + Padded(e.tag) + Le32(e.size) + after == Zeros(p + 4) + end;
    SkipZerosSkips(7, 3, end);
    MisreadSize(e.name, e.size, after);
  }

  lemma MisreadSize(name: seq<Byte>, size: nat, after: seq<Byte>)
    requires 16 <= size <= 32
    ensures ReadSize(name, [], Zeros(4) + (Le32(size) + after)) == Some((Entry(name, [], 256 * size), [0] + after))
  {
    var end := Le32(size) + after;
    SkipZerosSkips(4, 3, end);
    var late := Zeros(1) + end;
    assert late[..4] == [0, size, 0, 0] && late[4..] == [0] + after;
  }

  lemma EmptyPadded()
    ensures Padded([]) == Zeros(4)
  {
  }

  lemma {:induction false} LastMisread(front: seq<Entry>, e: Entry, after: seq<Byte>)
    requires forall i :: 0 <= i < |front| ==> Recordable(front[i]) && !Misread(front[i])
    requires Recordable(e) && Misread(e)
    ensures ReadEntries(EntriesBytes(front + [e]) + after, |front| + 1)
         == Some((front + [Entry(e.name, [], 256 * e.size)], [0] + after))
    decreases |front|
  {
    hide ReadEntry, EntryBytes, Misread, Recordable, Le32, FromLe32;
    var es := front + [e];
    var more := EntriesBytes(es[1..]) + after;
    assert EntriesBytes(es) + after == EntryBytes(es[0]) + more;
    if front == [] {
      assert es[0] == e && es[1..] == [] && more == after;
      MisreadEntry(e, after);
      assert [Entry(e.name, [], 256 * e.size)] + [] == front + [Entry(e.name, [], 256 * e.size)];
    } else {
      EntryReads(es[0], more);
      assert es[1..] == front[1..] + [e];
      LastMisread(front[1..], e, after);
      assert [front[0]] + (front[1..] + [Entry(e.name, [], 256 * e.size)]) == front + [Entry(e.name, [], 256 * e.size)];
    }
  }

  /** Messages whose sizes are multiples of four cannot end one byte off. */
  lemma {:induction false} ReplayKeepsFours(rest: seq<Byte>, es: seq<Entry>)
    requires forall i :: 0 <= i < |es| ==> es[i].size % 4 == 0
    ensures Replayed(rest, es).Some? ==> (|rest| + Replayed(rest, es).value.1) % 4 == 0
    decreases |rest|
  {
    hide FromLe32, DataSize;
    if rest != [] && Replayed(rest, es).Some? {
      var size := es[FromLe32(rest[..4])].size;
      if size <= |rest| {
        ReplayKeepsFours(rest[size..], es);
      }
    }
  }

  lemma {:induction false} MessagesLength(ms: seq<Message>)
    requires forall i :: 0 <= i < |ms| ==> |ms[i].data| % 4 == 0
    ensures |MessagesBytes(ms)| % 4 == 0
  {
    hide Le64;
    if ms != [] {
      MessagesLength(ms[1..]);
    }
  }

  /** A header whose last line is of the kind that is misread. */
  lemma LastLineMisread(front: seq<Entry>, last: Entry, after: seq<Byte>)
    requires |front| + 1 < TWO_31
    requires forall i :: 0 <= i < |front| ==> Recordable(front[i]) && !Misread(front[i])
    requires Recordable(last) && Misread(last)
    ensures ParseHeader(Header(front + [last]) + after)
         == Some((front + [Entry(last.name, [], 256 * last.size)], [0] + after))
  {
    hide ParseHeader, Header, ReadEntries, EntriesBytes, Misread, Recordable;
    HeaderIsParsed(front + [last], after);
    LastMisread(front, last, after);
  }

  /** If at most the last line of the header is of the kind that is misread, a recording is
      played back as recorded exactly when that line is not. */
  lemma PlaybackIffLastIsRead(front: seq<Entry>, last: Entry, ms: seq<Message>)
    requires |front| + 1 < TWO_31
    requires forall i :: 0 <= i < |front| ==> Recordable(front[i]) && !Misread(front[i]) && front[i].size % 4 == 0
    requires Recordable(last) && last.size % 4 == 0
    requires forall i :: 0 <= i < |ms| ==> NumberMessage(ms[i], front + [last])
    ensures Play(Header(front + [last]) + MessagesBytes(ms)) == Some((Pushes(ms), 0)) <==> !Misread(last)
  {
    hide ParseHeader, Header, Replayed, Misread, MessagesBytes, Recordable;
    var es, body := front + [last], MessagesBytes(ms);
    if Misread(last) {
      LastLineMisread(front, last, body);
      MessagesLength(ms);
      ReplayKeepsFours([0] + body, front + [Entry(last.name, [], 256 * last.size)]);
    } else {
      PlaybackOfRecording(es, ms);
    }
  }

  /** The lines "/a" with tag "f", and "/abc" without a tag. */
  const FLOAT_LINE := Entry([47, 97], [102], 20)
  const MISREAD_LINE := Entry([47, 97, 98, 99], [], 16)

  /** A message of the first is not played back as recorded when the second follows it. */
  lemma MisreadLineSpoilsPlayback(timestamp: nat, data: seq<Byte>)
    requires |data| == 4
    ensures var ms := [Message(0, timestamp, data)];
            Play(Header([FLOAT_LINE, MISREAD_LINE]) + MessagesBytes(ms)) != Some((Pushes(ms), 0))
  {
    hide Play, Header, MessagesBytes;
    assert [FLOAT_LINE] + [MISREAD_LINE] == [FLOAT_LINE, MISREAD_LINE];
    PlaybackIffLastIsRead([FLOAT_LINE], MISREAD_LINE, [Message(0, timestamp, data)]);
  }

  /** A line with a tag that is no typetag, but can be taken for a size. */
  const FILLER := Entry([47], [4], 16)

  function Fillers(n: nat): (r: seq<Entry>)
    ensures |r| == n && forall i :: 0 <= i < n ==> r[i] == FILLER
  {
    seq(n, _ => FILLER)
  }

  /** What is read of `n` such lines when the first starts four bytes too early. */
  function Fallen(n: nat): (r: seq<Entry>)
    ensures |r| == n && forall i :: 0 <= i < n ==> r[i] == Entry([16], [47], 4)
  {
    seq(n, _ => Entry([16], [47], 4))
  }

  lemma FillerBytes(rest: seq<Byte>)
    ensures EntryBytes(FILLER) + rest == [47] + [0] + (Zeros(2) + ([4, 0, 0, 0] + (Le32(16) + rest)))
  {
    hide Le32;
    assert EntryBytes(FILLER) == [47, 0, 0, 0, 4, 0, 0, 0] + Le32(16);
  }

  lemma TagAsSize(name: seq<Byte>, rest: seq<Byte>)
    ensures ReadSize(name, [47], Zeros(2) + ([4, 0, 0, 0] + rest)) == Some((Entry(name, [47], 4), rest))
  {
    var sized := [4, 0, 0, 0] + rest;
    SkipZerosSkips(2, 3, sized);
    assert Zeros(0) + sized == sized && sized[..4] == [4, 0, 0, 0] && sized[4..] == rest;
  }

  /** The tag of the line is read as the size, and its name as the tag. */
  lemma FillerReads(name: seq<Byte>, k: nat, more: seq<Byte>)
    requires k <= 3
    ensures ReadTag(name, Zeros(k) + (EntryBytes(FILLER) + more)) == Some((Entry(name, [47], 4), Le32(16) + more))
  {
    hide EntryBytes, Le32, ReadSize, CString;
    var sized := Zeros(2) + ([4, 0, 0, 0] + (Le32(16) + more));
    var tagged := [47] + [0] + sized;
    FillerBytes(more);
    SkipZerosSkips(k, 3, tagged);
    assert Zeros(0) + tagged == tagged;
    CStringReads([47], sized);
    TagAsSize(name, Le32(16) + more);
  }

  lemma {:induction false} FillersRead(n: nat, more: seq<Byte>)
    ensures ReadEntries(Le32(16) + EntriesBytes(Fillers(n)) + more, n) == Some((Fallen(n), Le32(16) + more))
  {
    hide ReadTag, EntryBytes, CString;
    var rest := Le32(16) + EntriesBytes(Fillers(n)) + more;
    if n == 0 {
      assert rest == Le32(16) + more;
    } else {
      var later := EntriesBytes(Fillers(n - 1)) + more;
      assert Fillers(n)[1..] == Fillers(n - 1);
      var named := Zeros(2) + (EntryBytes(FILLER) + later);
      assert rest == [16] + [0] + named;
      CStringReads([16], named);
      FillerReads([16], 2, later);
      FillersRead(n - 1, more);
      assert Le32(16) + EntriesBytes(Fillers(n - 1)) + more == Le32(16) + later;
      assert Fallen(n) == [Entry([16], [47], 4)] + Fallen(n - 1);
    }
  }

  /** A float, the line that is misread, and fifteen such lines. */
  function Contrived(): (es: seq<Entry>)
    ensures |es| == 17
  {
    [FLOAT_LINE, MISREAD_LINE] + Fillers(15)
  }

  /** How they are read. */
  function ContrivedRead(): (es: seq<Entry>)
    ensures |es| == 17
  {
    [FLOAT_LINE, Entry(MISREAD_LINE.name, [], 4096), Entry([], [47], 4)] + Fallen(14)
  }

  lemma OneLineRead(rest: seq<Byte>, count: nat, e: Entry, after: seq<Byte>, es: seq<Entry>, end: seq<Byte>)
    requires ReadEntry(rest) == Some((e, after)) && ReadEntries(after, count) == Some((es, end))
    ensures ReadEntries(rest, count + 1) == Some(([e] + es, end))
  {
    hide ReadEntry;
  }

  /** The first of them, with the zero that the misread line has left. */
  lemma FirstFillerRead(more: seq<Byte>)
    ensures ReadEntries([0] + (EntriesBytes(Fillers(15)) + more), 15)
         == Some(([Entry([], [47], 4)] + Fallen(14), Le32(16) + more))
  {
    hide ReadTag, EntryBytes, CString, Le32, ReadEntries, Fillers, Fallen, EntriesBytes, FILLER;
    var later := EntriesBytes(Fillers(14)) + more;
    var rest := [0] + (EntriesBytes(Fillers(15)) + more);
    FillersCons(15);
    var named := Zeros(0) + (EntryBytes(FILLER) + later);
    assert rest == [] + [0] + named;
    CStringReads([], named);
    FillerReads([], 0, later);
    FillersRead(14, more);
    assert Le32(16) + EntriesBytes(Fillers(14)) + more == Le32(16) + later;
    OneLineRead(rest, 14, Entry([], [47], 4), Le32(16) + later, Fallen(14), Le32(16) + more);
  }

  lemma FillersCons(n: nat)
    requires n > 0
    ensures EntriesBytes(Fillers(n)) == EntryBytes(FILLER) + EntriesBytes(Fillers(n - 1))
  {
    hide EntryBytes;
    assert Fillers(n)[1..] == Fillers(n - 1);
  }

  /** The misread line and what follows it. */
  lemma SecondLineRead(more: seq<Byte>)
    ensures ReadEntries(EntryBytes(MISREAD_LINE) + (EntriesBytes(Fillers(15)) + more), 16)
         == Some(([Entry(MISREAD_LINE.name, [], 4096)] + ([Entry([], [47], 4)] + Fallen(14)), Le32(16) + more))
  {
    hide ReadEntry, EntryBytes, Le32, ReadEntries, Fillers, Fallen, EntriesBytes;
    var later := EntriesBytes(Fillers(15)) + more;
    FirstFillerRead(more);
    MisreadEntry(MISREAD_LINE, later);
    OneLineRead(EntryBytes(MISREAD_LINE) + later, 15, Entry(MISREAD_LINE.name, [], 4096), [0] + later,
                [Entry([], [47], 4)] + Fallen(14), Le32(16) + more);
  }

  lemma ContrivedIsRead(more: seq<Byte>)
    ensures ReadEntries(EntriesBytes(Contrived()) + more, 17) == Some((ContrivedRead(), Le32(16) + more))
  {
    hide ReadEntry, EntryBytes, Le32, ReadEntries, EntriesBytes, Fillers, Fallen;
    var second := [Entry(MISREAD_LINE.name, [], 4096)] + ([Entry([], [47], 4)] + Fallen(14));
    var later := EntryBytes(MISREAD_LINE) + (EntriesBytes(Fillers(15)) + more);
    assert Contrived() == [FLOAT_LINE] + ([MISREAD_LINE] + Fillers(15));
    TwoLines(FLOAT_LINE, MISREAD_LINE, Fillers(15), more);
    SecondLineRead(more);
    EntryReads(FLOAT_LINE, later);
    OneLineRead(EntriesBytes(Contrived()) + more, 16, FLOAT_LINE, later, second, Le32(16) + more);
    assert [FLOAT_LINE] + second == ContrivedRead();
  }

  lemma TwoLines(a: Entry, b: Entry, es: seq<Entry>, more: seq<Byte>)
    ensures EntriesBytes([a] + ([b] + es)) + more == EntryBytes(a) + (EntryBytes(b) + (EntriesBytes(es) + more))
  {
    hide EntryBytes;
    assert ([a] + ([b] + es))[1..] == [b] + es && ([b] + es)[1..] == es;
  }

  lemma ContrivedFile(body: seq<Byte>)
    ensures ParseHeader(Header(Contrived()) + body) == Some((ContrivedRead(), Le32(16) + body))
  {
    hide ParseHeader, Header, ReadEntries, EntriesBytes, Le32, Contrived, ContrivedRead;
    HeaderIsParsed(Contrived(), body);
    ContrivedIsRead(body);
  }

  /** So no such statement holds of the other lines: this file is played back as recorded although
      its second line is misread. */
  lemma MisreadLineCanPlay(ms: seq<Message>)
    requires ms != [] && forall i :: 0 <= i < |ms| ==> ms[i].index == 0 && |ms[i].data| == 4
    ensures (forall i :: 0 <= i < 17 ==> Recordable(Contrived()[i])) && Misread(Contrived()[1])
    ensures Play(Header(Contrived()) + MessagesBytes(ms)) == Some((Pushes(ms), 0))
  {
    hide ParseHeader, Header, MessagesBytes, Replayed;
    var body, es := MessagesBytes(ms), ContrivedRead();
    ContrivedFile(body);
    MessagesReplay(ms, es);
    SkipsFour(ms, es);
    BehindNothing(Replayed(body, es));
  }

  /** What is left of the header is taken for a message of the last line, of size four. */
  lemma SkipsFour(ms: seq<Message>, es: seq<Entry>)
    requires ms != [] && |ms[0].data| == 4 && |es| == 17 && es[16] == Entry([16], [47], 4)
    ensures Replayed(Le32(16) + MessagesBytes(ms), es) == Behind([], Replayed(MessagesBytes(ms), es))
  {
    hide Le32, FromLe32, Le64;
    var rest := Le32(16) + MessagesBytes(ms);
    Le32RoundTrip(16);
    assert rest[..4] == Le32(16) && rest[4..] == MessagesBytes(ms);
    assert |MessagesBytes(ms)| >= 20;
  }

  // ------------------------------------------------------------------ the recorder

  datatype ValueType = Bool | Int | Float | Vec2f | Vec3f | Vec4f | Impulse | Other

  function MessageDataSize(t: ValueType): nat {
    match t
    case Bool => 4
    case Int => 4
    case Float => 4
    case Vec2f => 8
    case Vec3f => 12
    case Vec4f => 16
    case _ => 0
  }

  /** The typetag that the library gives to a parameter with a value of such a type, unless it is a
      colour or a buffer; that of a bool is "T" or "F". */
  function TagOf(t: ValueType, flag: bool): seq<Byte>
    requires t != Other
  {
    match t
    case Bool => [if flag then 84 else 70]
    case Int => [105]
    case Float => [102]
    case Vec2f => [102, 102]
    case Vec3f => [102, 102, 102]
    case Vec4f => [102, 102, 102, 102]
    case Impulse => [73]
  }

  /** The size of a message is the one that the player goes by, for ints, floats and vectors; it
      knows no typetag of the others, so that their messages are skipped. */
  lemma SizesAgree(t: ValueType, flag: bool)
    requires t != Other
    ensures var tag := TagOf(t, flag);
            if t == Bool || t == Impulse then DataSize(tag) == 0 && MessageDataSize(t) == (if t == Bool then 4 else 0)
            else NumberTag(tag) && DataSize(tag) == MessageDataSize(t) == 4 * |tag|
  {
  }

  /** So every line of the header has the size that NumberMessage asks for. */
  lemma LineIsSized(n: Node)
    requires n.kind != Other && NumberTag(n.tag) && n.tag == TagOf(n.kind, false)
    ensures Line(n) == Entry(n.address, n.tag, 16 + 4 * |n.tag|)
  {
    hide TagOf, NumberTag, DataSize;
    SizesAgree(n.kind, false);
    NumberSize(n.tag);
    TagHasLetters(n.tag);
  }

  /** A node of the device: its address, its typetag and the type of its parameter. */
  datatype Node = Node(address: seq<Byte>, tag: seq<Byte>, kind: ValueType)

  function Line(n: Node): Entry {
    Entry(n.address, n.tag, 16 + MessageDataSize(n.kind))
  }

  function Lines(ns: seq<Node>): (r: seq<Entry>)
    ensures |r| == |ns|
  {
    seq(|ns|, i requires 0 <= i < |ns| => Line(ns[i]))
  }

  lemma LinesAreRecordable(ns: seq<Node>)
    requires forall i :: 0 <= i < |ns| ==> NulFree(ns[i].address) && NulFree(ns[i].tag)
    ensures forall i :: 0 <= i < |ns| ==> Recordable(Lines(ns)[i])
  {
  }

  /** The recorder's own files are played back: if its nodes have addresses and tags without
      zeros, none of them is of the kind that is misread, and messages come from parameters whose
      values are numbers. */
  lemma {:induction false} RecordingIsPlayedBack(ns: seq<Node>, ms: seq<Message>)
    requires |ns| < TWO_31
    requires forall i :: 0 <= i < |ns| ==> NulFree(ns[i].address) && NulFree(ns[i].tag)
    requires forall i :: 0 <= i < |ns| ==> !(ns[i].tag == [] && |ns[i].address| % 4 == 0)
    requires forall i :: 0 <= i < |ms| ==> ms[i].index < |ns| && MessageOf(ns[ms[i].index], ms[i])
    ensures Play(Header(Lines(ns)) + MessagesBytes(ms)) == Some((Pushes(ms), 0))
  {
    LinesAreRecordable(ns);
    forall i | 0 <= i < |ns|
      ensures !Misread(Lines(ns)[i])
    {
      assert Lines(ns)[i] == Line(ns[i]);
    }
    forall i | 0 <= i < |ms|
      ensures NumberMessage(ms[i], Lines(ns))
    {
      assert Lines(ns)[ms[i].index] == Line(ns[ms[i].index]);
      MessageIsSized(ns, ms[i]);
    }
    PlaybackOfRecording(Lines(ns), ms);
  }

  /** What can be recorded of a node: the bytes of one number, or of a few. */
  predicate MessageOf(n: Node, m: Message) {
    n.kind in {Int, Float, Vec2f, Vec3f, Vec4f} && n.tag == TagOf(n.kind, false) && |m.data| == 4 * |n.tag|
  }

  lemma MessageIsSized(ns: seq<Node>, m: Message)
    requires m.index < |ns| && MessageOf(ns[m.index], m)
    ensures NumberMessage(m, Lines(ns))
  {
    SizesAgree(ns[m.index].kind, false);
    LineIsSized(ns[m.index]);
  }

  lemma {:induction false} EntriesConcat(a: seq<Entry>, b: seq<Entry>)
    ensures EntriesBytes(a + b) == EntriesBytes(a) + EntriesBytes(b)
  {
    hide EntryBytes, EntriesBytes;
    if a == [] {
      assert a + b == b && a[..0] == a;
      NoEntries(a);
    } else {
      EntriesConcat(a[1..], b);
      EntriesCons(a);
      EntriesCons(a + b);
      assert (a + b)[0] == a[0] && (a + b)[1..] == a[1..] + b;
    }
  }

  /** The bytes of a float, or a value of another type. */
  datatype Value = FloatValue(bytes: seq<Byte>) | OtherValue

  class Recorder {
    var file: seq<Byte>
    var pos: int
    var indices: map<nat, nat>   // the node's number in the header, by the node's identity

    constructor (indices: map<nat, nat>)
      ensures file == [] && pos == 0 && this.indices == indices
    {
      file, pos, this.indices := [], 0, indices;
    }

    method Pad4()
      requires pos >= 0
      modifies `file, `pos
      ensures file == old(file) + Zeros(Missing(old(pos))) && pos == old(pos) + Missing(old(pos))
    {
      var n := pos % 4;
      if n == 1 {
        file := file + [0, 0, 0];
        pos := pos + 3;
      } else if n == 2 {
        file := file + [0, 0];
        pos := pos + 2;
      } else if n == 3 {
        file := file + [0];
        pos := pos + 1;
      }
    }

    method WriteString(s: seq<Byte>)
      requires pos >= 0 && pos % 4 == 0
      modifies `file, `pos
      ensures file == old(file) + Padded(s) && pos == old(pos) + |Padded(s)|
    {
      file := file + s + [0];
      pos := pos + |s| + 1;
      Pad4();
    }

    method WriteHeader(nodes: seq<Node>)
      requires pos == 0
      modifies `file, `pos
      ensures file == old(file) + Header(Lines(nodes)) && pos == |Header(Lines(nodes))|
    {
      hide EntriesBytes, EntryBytes, Padded, Le32;
      file := file + MAGIC;
      pos := pos + 4;
      file := file + Le32(|nodes|);
      pos := pos + 4;
      ghost var start := file;
      NoEntries(Lines(nodes));
      for i := 0 to |nodes|
        invariant file == start + EntriesBytes(Lines(nodes)[..i])
        invariant pos == 8 + |EntriesBytes(Lines(nodes)[..i])|
      {
        EntriesAligned(Lines(nodes)[..i]);
        WriteLine(nodes[i]);
        OneMoreEntry(Lines(nodes), i);
      }
      assert Lines(nodes)[..|nodes|] == Lines(nodes);
      assert file == old(file) + Header(Lines(nodes));
    }

    method WriteLine(node: Node)
      requires pos >= 0 && pos % 4 == 0
      modifies `file, `pos
      ensures file == old(file) + EntryBytes(Line(node)) && pos == old(pos) + |EntryBytes(Line(node))|
    {
      hide Padded, Le32;
      WriteString(node.address);
      WriteString(node.tag);
      file := file + Le32(16 + MessageDataSize(node.kind));
      pos := pos + 4;
    }

    /** Only floats are written, and only for the nodes of the header.  The position counts the
        items that are written from here on, no longer the bytes. */
    method WriteMessage(node: nat, clock: nat, v: Value)
      modifies `file, `pos
      ensures file == old(file) +
        (if node in indices && v.FloatValue? then MessageBytes(Message(indices[node], clock, v.bytes)) else [])
    {
      if node in indices {
        if v.FloatValue? {
          file := file + Le64(indices[node]) + Le64(clock) + v.bytes;
          pos := pos + 3;
        }
      }
    }
  }

  lemma NoEntries(es: seq<Entry>)
    ensures EntriesBytes(es[..0]) == []
  {
  }

  lemma EntriesCons(es: seq<Entry>)
    requires es != []
    ensures EntriesBytes(es) == EntryBytes(es[0]) + EntriesBytes(es[1..])
  {
  }

  lemma OneMoreEntry(es: seq<Entry>, i: nat)
    requires i < |es|
    ensures EntriesBytes(es[..i + 1]) == EntriesBytes(es[..i]) + EntryBytes(es[i])
  {
    EntriesConcat(es[..i], [es[i]]);
    assert es[..i + 1] == es[..i] + [es[i]];
    assert [es[i]][1..] == [];
  }

  // ------------------------------------------------------------------ the player

  class Player {
    const file: seq<Byte>
    var pos: nat
    var entries: seq<Entry>

    constructor (file: seq<Byte>)
      ensures this.file == file && pos == 0 && entries == []
    {
      this.file, pos, entries := file, 0, [];
    }

    method ReadToNextBoundary()
      requires pos <= |file|
      modifies `pos
      ensures pos <= |file| && file[pos..] == SkipZeros(file[old(pos)..], 3)
    {
      var k := 3;
      while pos < |file| && file[pos] == 0 && k > 0
        invariant pos <= |file| && 0 <= k <= 3
        invariant SkipZeros(file[pos..], k) == SkipZeros(file[old(pos)..], 3)
      {
        assert file[pos..][1..] == file[pos + 1..];
        pos := pos + 1;
        k := k - 1;
      }
    }

    /** A string as C reads it, moving behind its zero. */
    method ReadString() returns (s: Option<seq<Byte>>)
      requires pos <= |file|
      modifies `pos
      ensures pos <= |file|
      ensures match CString(file[old(pos)..])
              case None => s == None
              case Some((t, after)) => s == Some(t) && file[pos..] == after
    {
      var t: seq<Byte> := [];
      var i := pos;
      BehindNothing(CString(file[pos..]));
      while i < |file| && file[i] != 0
        invariant old(pos) == pos <= i <= |file|
        invariant CString(file[pos..]) == Behind(t, CString(file[i..]))
      {
        assert file[i..][1..] == file[i + 1..];
        BehindTwice(t, [file[i]], CString(file[i + 1..]));
        t := t + [file[i]];
        i := i + 1;
      }
      if i == |file| {
        return None;
      }
      assert file[i..][0] == 0 && file[i..][1..] == file[i + 1..] && t + [] == t;
      assert CString(file[i..]) == Some(([], file[i + 1..]));
      pos := i + 1;
      s := Some(t);
    }

    method ReadLine() returns (e: Option<Entry>)
      requires pos <= |file|
      modifies `pos
      ensures pos <= |file|
      ensures match ReadEntry(file[old(pos)..])
              case None => e == None
              case Some((f, after)) => e == Some(f) && file[pos..] == after
    {
      hide CString, SkipZeros, FromLe32;
      var name := ReadString();
      if name == None {
        return None;
      }
      ReadToNextBoundary();
      if pos == |file| {
        return None;
      }
      var tag: seq<Byte> := [];
      assert file[pos..][0] == file[pos];
      if file[pos] != 0 {
        var t := ReadString();
        if t == None {
          return None;
        }
        tag := t.value;
      }
      ReadToNextBoundary();
      if |file| - pos < 4 {
        return None;
      }
      assert file[pos..][..4] == file[pos..pos + 4] && file[pos..][4..] == file[pos + 4..];
      e := Some(Entry(name.value, tag, FromLe32(file[pos..pos + 4])));
      pos := pos + 4;
    }

    /** Reads the entries; false where the file ends too early. */
    method ReadHeader() returns (ok: bool)
      requires pos == 0 && entries == []
      modifies `pos, `entries
      ensures pos <= |file|
      ensures if ok then ParseHeader(file) == Some((entries, file[pos..])) else ParseHeader(file) == None
    {
      hide ReadEntry;
      if |file| < 8 {
        return false;
      }
      if file[..4] != MAGIC {
        assert file[0..] == file;
        return true;
      }
      var count := FromLe32(file[4..8]);
      pos := 8;
      var todo := if count < TWO_31 then count else 0;
      ghost var all := ReadEntries(file[8..], todo);
      BehindNothing(all);
      while todo > 0
        invariant 0 <= todo && pos <= |file|
        invariant all == Behind(entries, ReadEntries(file[pos..], todo))
      {
        var e := ReadLine();
        if e == None {
          return false;
        }
        BehindTwice(entries, [e.value], ReadEntries(file[pos..], todo - 1));
        entries := entries + [e.value];
        todo := todo - 1;
      }
      assert entries + [] == entries;
      ok := true;
    }

    /** Pushes the value at the current position, if its type is known, and moves on. */
    method Process(index: nat) returns (pushed: seq<Push>)
      requires index < |entries| && pos <= |file|
      requires |file| - pos >= 16 + DataSize(entries[index].tag)
      modifies `pos
      ensures pos == old(pos) + entries[index].size
      ensures pushed == Pushed(index, DataSize(entries[index].tag), file[old(pos)..])
    {
      var n := DataSize(entries[index].tag);
      pushed := [];
      if n > 0 {
        assert file[pos..][16..16 + n] == file[pos + 16..pos + 16 + n];
        pushed := [Push(index, file[pos + 16..pos + 16 + n])];
      }
      pos := pos + entries[index].size;
    }

    /** Replays the messages behind the header; None where the source would read outside of the
        file or of the entries, or for ever. */
    method Replay() returns (pushed: Option<seq<Push>>)
      requires pos <= |file|
      modifies `pos
      ensures match Replayed(file[old(pos)..], entries)
              case None => pushed == None
              case Some((ps, over)) => pushed == Some(ps) && pos == |file| + over
    {
      hide FromLe32, DataSize, Pushed;
      var done: seq<Push> := [];
      ghost var all := Replayed(file[pos..], entries);
      BehindNothing(all);
      while pos < |file|
        invariant all ==
          Behind(done, if pos <= |file| then Replayed(file[pos..], entries) else Some(([], pos - |file|)))
      {
        ghost var rest := file[pos..];
        if |file| - pos < 4 {
          return None;
        }
        assert rest[..4] == file[pos..pos + 4];
        var index := FromLe32(file[pos..pos + 4]);
        if index >= |entries| || entries[index].size == 0 || |file| - pos < 16 + DataSize(entries[index].tag) {
          return None;
        }
        ghost var size := entries[index].size;
        var some := Process(index);
        assert size <= |rest| ==> rest[size..] == file[pos..];
        BehindTwice(done, some, if pos <= |file| then Replayed(file[pos..], entries) else Some(([], pos - |file|)));
        done := done + some;
      }
      assert done + [] == done;
      pushed := Some(done);
    }
  }
}
