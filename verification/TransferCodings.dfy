/** Which transfer codings a header announces (section 3.3.1 of RFC 7230), and what the chunked builder makes of them. */
module TransferCodings {
  import opened Wrappers
  import opened Sequences
  import opened Strings
  import opened HeaderString

  // ---------------------------------------------------------------- lists

  predicate IsBlank(ch: char) { ch == ' ' || ch == '\t' }

  function Trim(s: string): string {
    if s != "" && IsBlank(s[0]) then Trim(s[1..])
    else if s != "" && IsBlank(s[|s| - 1]) then Trim(s[..|s| - 1])
    else s
  }

  /** What follows the last comma. */
  function Tail(s: string): (t: string)
    ensures |t| <= |s|
  {
    if s == "" || s[|s| - 1] == ',' then "" else Tail(s[..|s| - 1]) + [s[|s| - 1]]
  }

  /** The elements of a comma-separated list, blanks around them and empty ones left out (section 7 of RFC 7230). */
  function Elements(s: string): seq<string> {
    var last := Trim(Tail(s));
    (if |Tail(s)| == |s| then [] else Elements(s[..|s| - |Tail(s)| - 1])) + if last == "" then [] else [last]
  }

  function Lower(ch: char): char { if 'A' <= ch <= 'Z' then ch - 'A' + 'a' else ch }

  /** Names are compared without regard to case. */
  predicate Named(s: string, lower: string) {
    |s| == |lower| && forall i :: 0 <= i < |s| ==> Lower(s[i]) == lower[i]
  }

  predicate IsTransferEncoding(name: string) { Named(name, "transfer-encoding") }

  predicate IsChunked(coding: string) { Named(coding, "chunked") }

  /** The transfer codings of a header, those of several fields one after the other (section 3.2.2 of RFC 7230). */
  function Codings(fields: seq<Field>): seq<string> {
    if fields == [] then []
    else
      var last := fields[|fields| - 1];
      Codings(fields[..|fields| - 1]) + if IsTransferEncoding(last.name) then Elements(last.value) else []
  }

  predicate AnyChunked(codings: seq<string>) { exists i :: 0 <= i < |codings| && IsChunked(codings[i]) }

  /** A chunked body has to have the chunked coding as its last one, and only there. */
  predicate ChunkedLast(codings: seq<string>) {
    var n := |codings|;
    n > 0 && IsChunked(codings[n - 1]) && !AnyChunked(codings[..n - 1])
  }

  // ---------------------------------------------------------------- what is sent

  function FindTransferEncoding(fields: seq<Field>, from: nat): (r: Option<nat>)
    ensures r.Some? ==> from <= r.value < |fields| && IsTransferEncoding(fields[r.value].name)
    ensures forall i :: from <= i < (if r.Some? then r.value else |fields|) ==> !IsTransferEncoding(fields[i].name)
    decreases |fields| - from
  {
    if from >= |fields| then None
    else if IsTransferEncoding(fields[from].name) then Some(from)
    else FindTransferEncoding(fields, from + 1)
  }

  /** `prepare_header_for_sending`: only the first field is looked at, and only for a substring. */
  function Announced(h: Header): Header {
    match FindTransferEncoding(h.fields, 0)
    case None => h.(fields := h.fields + [Field("Transfer-Encoding", "chunked")])
    case Some(i) =>
      var value := h.fields[i].value;
      if Find(value, "chunked").Some? then h
      else h.(fields := h.fields[i := h.fields[i].(value := value + ",chunked")])
  }

  /**
    What is announced changes nothing else in the header: every field stays where it is, with its name; at most one is
    added, behind them; and only the value of the first one that sets transfer codings may get longer.
  */
  lemma AnnouncedKeeps(h: Header)
    ensures var sent := Announced(h); var first := FindTransferEncoding(h.fields, 0);
            && sent == h.(fields := sent.fields)
            && |sent.fields| == |h.fields| + (if first.None? then 1 else 0)
            && (first.None? ==> sent.fields[|h.fields|] == Field("Transfer-Encoding", "chunked"))
            && forall i :: 0 <= i < |h.fields| ==>
                 && sent.fields[i].name == h.fields[i].name && h.fields[i].value <= sent.fields[i].value
                 && (sent.fields[i].value == h.fields[i].value
                     || (first == Some(i) && !Contains(h.fields[i].value, "chunked")
                         && sent.fields[i].value == h.fields[i].value + ",chunked"))
  {
    match FindTransferEncoding(h.fields, 0)
    case None =>
    case Some(i) => FindFromSpec(h.fields[i].value, "chunked", 0);
  }

  // ---------------------------------------------------------------- lists grow at their end

  lemma {:induction false} TailBehind(s: string, t: string)
    requires ',' !in t
    ensures Tail(s + "," + t) == t
    decreases |t|
  {
    var all := s + "," + t;
    if t != "" {
      var n := |t| - 1;
      assert all[..|all| - 1] == s + "," + t[..n];
      TailBehind(s, t[..n]);
      assert t == t[..n] + [t[n]];
    }
  }

  lemma ElementsBehind(s: string)
    ensures Elements(s + ",chunked") == Elements(s) + ["chunked"]
  {
    var all := s + ",chunked";
    assert all == s + "," + "chunked";
    TailBehind(s, "chunked");
    assert all[..|all| - 8] == s;
  }

  lemma OneElement(s: string)
    requires ',' !in s && s != "" && !IsBlank(s[0]) && !IsBlank(s[|s| - 1])
    ensures Elements(s) == [s]
  {
    NoCommaTail(s);
  }

  /** A header with one transfer coding. */
  lemma OneCoding(f: Field)
    requires IsTransferEncoding(f.name) && Elements(f.value) == [f.value]
    ensures Codings([f]) == [f.value] && FindTransferEncoding([f], 0) == Some(0)
  {
    CodingsOne(f);
  }

  lemma {:induction false} NoCommaTail(s: string)
    requires ',' !in s
    ensures Tail(s) == s
    decreases |s|
  {
    if s != "" {
      NoCommaTail(s[..|s| - 1]);
    }
  }

  lemma {:induction false} CodingsConcat(a: seq<Field>, b: seq<Field>)
    ensures Codings(a + b) == Codings(a) + Codings(b)
    decreases |b|
  {
    if b == [] {
      assert a + b == a;
    } else {
      var n := |b| - 1;
      var more := if IsTransferEncoding(b[n].name) then Elements(b[n].value) else [];
      assert (a + b)[..|a + b| - 1] == a + b[..n];
      CodingsConcat(a, b[..n]);
      Regroup(Codings(a), Codings(b[..n]), more);
    }
  }

  lemma CodingsOne(f: Field)
    ensures Codings([f]) == if IsTransferEncoding(f.name) then Elements(f.value) else []
  {
    assert [f][..0] == [];
  }

  lemma {:induction false} NoCodings(fields: seq<Field>)
    requires forall i :: 0 <= i < |fields| ==> !IsTransferEncoding(fields[i].name)
    ensures Codings(fields) == []
    decreases |fields|
  {
    if fields != [] {
      NoCodings(fields[..|fields| - 1]);
    }
  }

  /** The codings of the first field that has any, and of those behind it. */
  lemma CodingsAround(fields: seq<Field>, i: nat)
    requires FindTransferEncoding(fields, 0) == Some(i)
    ensures Codings(fields) == Elements(fields[i].value) + Codings(fields[i + 1..])
  {
    NoCodings(fields[..i]);
    Divided(fields, i);
    CodingsConcat(fields[..i], [fields[i]] + fields[i + 1..]);
    CodingsConcat([fields[i]], fields[i + 1..]);
    CodingsOne(fields[i]);
  }

  lemma {:induction false} FindSame(fields: seq<Field>, from: nat, i: nat, f: Field)
    requires FindTransferEncoding(fields, from) == Some(i) && f.name == fields[i].name
    ensures FindTransferEncoding(fields[i := f], from) == Some(i)
    decreases |fields| - from
  {
    if from < i {
      FindSame(fields, from + 1, i, f);
    }
  }

  // ---------------------------------------------------------------- when the right thing is announced

  lemma ChunkedBetween(a: seq<string>, b: seq<string>)
    ensures ChunkedLast(a + ["chunked"] + b) <==> b == [] && !AnyChunked(a)
  {
    var all := a + ["chunked"] + b;
    var n := |all| - 1;
    if b == [] {
      assert all[..n] == a && all[n] == "chunked";
    } else {
      assert all[..n][|a|] == "chunked";
    }
  }

  /** What is added when the first field does not contain the word. */
  lemma AppendedCodings(h: Header, i: nat)
    requires FindTransferEncoding(h.fields, 0) == Some(i) && Find(h.fields[i].value, "chunked").None?
    ensures Codings(Announced(h).fields) == Elements(h.fields[i].value) + ["chunked"] + Codings(h.fields[i + 1..])
  {
    var f := h.fields[i].(value := h.fields[i].value + ",chunked");
    FindSame(h.fields, 0, i, f);
    var fields := h.fields[i := f];
    CodingsAround(fields, i);
    ElementsBehind(h.fields[i].value);
    assert fields[i + 1..] == h.fields[i + 1..];
  }

  /**
    The header that is sent announces the chunked coding, as the last one and once, if and only if: no transfer
    coding was set; or the first field that sets one does not contain the word, no coding in it is chunked in other
    letters, and no field behind it sets any; or it contains the word and the fields announce it rightly as they are.
  */
  lemma AnnouncedIff(h: Header)
    ensures ChunkedLast(Codings(Announced(h).fields)) <==>
            match FindTransferEncoding(h.fields, 0)
            case None => true
            case Some(i) =>
              if Contains(h.fields[i].value, "chunked") then ChunkedLast(Codings(h.fields))
              else Codings(h.fields[i + 1..]) == [] && !AnyChunked(Elements(h.fields[i].value))
  {
    match FindTransferEncoding(h.fields, 0)
    case None => AnnouncedFirst(h);
    case Some(i) =>
      var value := h.fields[i].value;
      FindFromSpec(value, "chunked", 0);
      if Find(value, "chunked").None? {
        AppendedCodings(h, i);
        ChunkedBetween(Elements(value), Codings(h.fields[i + 1..]));
      }
  }

  lemma AnnouncedFirst(h: Header)
    requires FindTransferEncoding(h.fields, 0).None?
    ensures ChunkedLast(Codings(Announced(h).fields))
  {
    var added := [Field("Transfer-Encoding", "chunked")];
    NoCodings(h.fields);
    CodingsConcat(h.fields, added);
    AddedCoding();
    Regroup([], [], Codings(added));
  }

  lemma AddedCoding()
    ensures ChunkedLast(Codings([Field("Transfer-Encoding", "chunked")]))
  {
    var f := Field("Transfer-Encoding", "chunked");
    FieldName();
    Word();
    OneCoding(f);
    Alone(f.value);
  }

  lemma FieldName()
    ensures IsTransferEncoding("Transfer-Encoding")
  {
  }

  lemma Word()
    ensures Elements("chunked") == ["chunked"] && IsChunked("chunked")
  {
    OneElement("chunked");
  }

  lemma Alone(coding: string)
    ensures ChunkedLast([coding]) <==> IsChunked(coding)
    ensures AnyChunked([coding]) <==> IsChunked(coding)
  {
    assert [coding][..0] == [] && [coding][0] == coding;
  }

  /** A coding that only contains the word goes out as it is, and the chunked coding is not announced at all. */
  lemma NeverAnnounced(h: Header)
    requires |h.fields| == 1 && IsTransferEncoding(h.fields[0].name) && h.fields[0].value == "unchunked"
    ensures Announced(h) == h && Codings(h.fields) == ["unchunked"] && !AnyChunked(["unchunked"])
  {
    LongerWord();
    assert h.fields == [h.fields[0]];
    OneCoding(h.fields[0]);
    Alone(h.fields[0].value);
  }

  lemma LongerWord()
    ensures Find("unchunked", "chunked").Some? && Elements("unchunked") == ["unchunked"] && !IsChunked("unchunked")
  {
    assert OccursAt("unchunked", "chunked", 2);
    FindFromSpec("unchunked", "chunked", 0);
    OneElement("unchunked");
  }

  /** The chunked coding behind itself in other letters. */
  lemma TwiceAnnounced(h: Header)
    requires |h.fields| == 1 && IsTransferEncoding(h.fields[0].name) && h.fields[0].value == "Chunked"
    ensures Codings(Announced(h).fields) == ["Chunked", "chunked"] && !ChunkedLast(["Chunked", "chunked"])
  {
    CapitalWord();
    assert h.fields == [h.fields[0]];
    OneCoding(h.fields[0]);
    AppendedCodings(h, 0);
    TwoCodings("Chunked", "chunked");
  }

  lemma CapitalWord()
    ensures Find("Chunked", "chunked").None? && Elements("Chunked") == ["Chunked"] && IsChunked("Chunked")
  {
    assert "Chunked"[0] != "chunked"[0];
    SameSize("Chunked", "chunked");
    OneElement("Chunked");
  }

  lemma SameSize(s: string, what: string)
    requires |s| == |what| && s != what
    ensures Find(s, what).None?
  {
    assert s[0..|s|] == s;
  }

  lemma TwoCodings(a: string, b: string)
    requires IsChunked(a)
    ensures !ChunkedLast([a, b])
  {
    assert [a, b][..1][0] == a;
  }
}
