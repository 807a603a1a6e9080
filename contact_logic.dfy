/**
 * The contact-form register of the backend: an append-only list of
 * submissions and a process-wide counter that numbers them. Each submission
 * gets a protocol (date plus zero-padded counter) and an id (timestamp plus
 * counter). The clock is an input: the local calendar date, its ISO
 * rendering and the millisecond timestamp are passed to `Create`.
 */
module ContactLogic {
  import opened Wrappers
  import opened Strings

  datatype ContactStatus = Novo | EmAtendimento | Concluido | Cancelado

  /** The fields the visitor submits. */
  datatype ContactRequest = ContactRequest(
    nomeCompleto: string,
    email: string,
    telefone: string,
    preferenciaContato: string,
    melhorHorario: string,
    idVeiculo: string,
    modeloVeiculo: string,
    assunto: string,
    mensagem: string,
    financiamento: bool,
    termosPrivacidade: bool,
    receberNovidades: bool,
    ipUsuario: string)

  /** A stored submission. */
  datatype Contact = Contact(
    id: string,
    protocolo: string,
    nomeCompleto: string,
    email: string,
    telefone: string,
    preferenciaContato: string,
    melhorHorario: string,
    idVeiculo: string,
    modeloVeiculo: string,
    assunto: string,
    mensagem: string,
    financiamento: bool,
    termosPrivacidade: bool,
    receberNovidades: bool,
    dataEnvio: string,
    ipUsuario: string,
    status: ContactStatus)

  datatype CreateResponse = CreateResponse(id: string, protocolo: string)

  /** The local date `new Date()` reads: full year, month (1-12) and day of the month. */
  datatype CalendarDate = CalendarDate(year: int, month: nat, day: nat)

  predicate ValidDate(d: CalendarDate) {
    1000 <= d.year <= 9999 && 1 <= d.month <= 12 && 1 <= d.day <= 31
  }

  /** `${year}${month}${day}${sequential}`, month and day padded to 2 digits, the counter to 5. */
  function Protocol(date: CalendarDate, counter: nat): string {
    IntToString(date.year) + PadStart(NatToString(date.month), 2, '0')
      + PadStart(NatToString(date.day), 2, '0') + PadStart(NatToString(counter), 5, '0')
  }

  /** `contact_${Date.now()}_${contactCounter}`. */
  function ContactId(timestamp: int, counter: nat): string {
    "contact_" + IntToString(timestamp) + "_" + NatToString(counter)
  }

  /** The record `contactCreate` stores: the request copied field by field, status `Novo`. */
  function NewContact(req: ContactRequest, date: CalendarDate, iso: string, timestamp: int, counter: nat): Contact {
    Contact(
      ContactId(timestamp, counter), Protocol(date, counter),
      req.nomeCompleto, req.email, req.telefone, req.preferenciaContato, req.melhorHorario,
      req.idVeiculo, req.modeloVeiculo, req.assunto, req.mensagem,
      req.financiamento, req.termosPrivacidade, req.receberNovidades,
      iso, req.ipUsuario, Novo)
  }

  /** A number below `10^w` (and at least `10^(w-1)` when `exact`) is written with `w` digits or fewer (exactly `w`). */
  lemma DigitCount(n: nat, w: nat, exact: bool)
    requires w >= 1 && n < Pow10(w)
    requires exact ==> w >= 2 && n >= Pow10(w - 1)
    ensures |NatToString(n)| <= w
    ensures exact ==> |NatToString(n)| == w
  {
    NatToStringLength(n, w);
    if exact {
      NatToStringLength(n, w - 1);
    }
  }

  /** A zero-padded field reads back as its number. */
  lemma PaddedField(n: nat, width: nat)
    ensures AllDigits(PadStart(NatToString(n), width, '0'))
    ensures DecimalValue(PadStart(NatToString(n), width, '0')) == n
  {
    NatToStringRoundTrip(n);
    ZeroPadValue(NatToString(n), width);
  }

  /** The four fields of a protocol sit at fixed offsets when year, month and day have 4, 2 and 2 digits. */
  lemma FourFields(y: string, m: string, d: string, c: string)
    requires |y| == 4 && |m| == 2 && |d| == 2
    requires AllDigits(y) && AllDigits(m) && AllDigits(d) && AllDigits(c)
    ensures var p := y + m + d + c;
      && AllDigits(p) && |p| == 8 + |c|
      && p[..4] == y && p[4..6] == m && p[6..8] == d && p[8..] == c
  {
    var p := y + m + d + c;
    forall i | 0 <= i < |p| ensures IsDigit(p[i]) {
      if i < 4 { assert p[i] == y[i]; }
      else if i < 6 { assert p[i] == m[i - 4]; }
      else if i < 8 { assert p[i] == d[i - 6]; }
      else { assert p[i] == c[i - 8]; }
    }
  }

  /**
   * For a real calendar date, the protocol is 4 digits of year, 2 of month,
   * 2 of day and the counter padded to at least 5 digits; each part reads
   * back as the number it encodes, and below 100000 the protocol has 13
   * digits.
   */
  lemma ProtocolLayout(date: CalendarDate, counter: nat)
    requires ValidDate(date)
    ensures var p := Protocol(date, counter);
      && |p| == 8 + (if |NatToString(counter)| >= 5 then |NatToString(counter)| else 5)
      && AllDigits(p)
      && AllDigits(p[..4]) && DecimalValue(p[..4]) == date.year
      && AllDigits(p[4..6]) && DecimalValue(p[4..6]) == date.month
      && AllDigits(p[6..8]) && DecimalValue(p[6..8]) == date.day
      && AllDigits(p[8..]) && DecimalValue(p[8..]) == counter
    ensures counter < 100000 ==> |Protocol(date, counter)| == 13
  {
    var y := NatToString(date.year);
    var m := PadStart(NatToString(date.month), 2, '0');
    var d := PadStart(NatToString(date.day), 2, '0');
    var c := PadStart(NatToString(counter), 5, '0');
    DigitCount(date.year, 4, true);
    DigitCount(date.month, 2, false);
    DigitCount(date.day, 2, false);
    NatToStringRoundTrip(date.year);
    PaddedField(date.month, 2);
    PaddedField(date.day, 2);
    PaddedField(counter, 5);
    assert Protocol(date, counter) == y + m + d + c;
    FourFields(y, m, d, c);
    if counter < 100000 {
      DigitCount(counter, 5, false);
    }
  }

  /** Two counters give two protocols on the same date. */
  lemma ProtocolInjective(date: CalendarDate, m: nat, n: nat)
    requires Protocol(date, m) == Protocol(date, n)
    ensures m == n
  {
    var head := IntToString(date.year) + PadStart(NatToString(date.month), 2, '0')
      + PadStart(NatToString(date.day), 2, '0');
    var pm, pn := PadStart(NatToString(m), 5, '0'), PadStart(NatToString(n), 5, '0');
    assert Protocol(date, m) == head + pm && Protocol(date, n) == head + pn;
    assert pm == (head + pm)[|head|..] == (head + pn)[|head|..] == pn;
    PaddedField(m, 5);
    PaddedField(n, 5);
  }

  predicate NoUnderscore(s: string) {
    forall i :: 0 <= i < |s| ==> s[i] != '_'
  }

  lemma IntToStringNoUnderscore(t: int)
    ensures NoUnderscore(IntToString(t))
  {
    var s := NatToString(if t < 0 then -t else t);
    assert AllDigits(s);
  }

  /** Position of the first underscore of `s`, or `|s|` when there is none. */
  function UnderscoreAt(s: string): (k: nat)
    ensures k <= |s|
  {
    if s == [] || s[0] == '_' then 0 else 1 + UnderscoreAt(s[1..])
  }

  lemma {:induction false} UnderscoreAfter(a: string, b: string)
    requires NoUnderscore(a)
    ensures UnderscoreAt(a + "_" + b) == |a|
  {
    if a != [] {
      assert (a + "_" + b)[1..] == a[1..] + "_" + b;
      UnderscoreAfter(a[1..], b);
    }
  }

  /** `a + "_" + b` splits at its first underscore when `a` has none. */
  lemma SplitAtUnderscore(a: string, b: string, c: string, d: string)
    requires NoUnderscore(a) && NoUnderscore(c)
    requires a + "_" + b == c + "_" + d
    ensures a == c && b == d
  {
    var x := a + "_" + b;
    UnderscoreAfter(a, b);
    UnderscoreAfter(c, d);
    assert a == x[..|a|] && c == x[..|c|];
    assert b == x[|a| + 1..] && d == x[|c| + 1..];
  }

  /** What follows the `contact_` prefix of an id. */
  lemma IdTail(t: int, n: nat)
    ensures |ContactId(t, n)| >= 8
    ensures ContactId(t, n)[8..] == IntToString(t) + "_" + NatToString(n)
  {
    assert ContactId(t, n) == "contact_" + (IntToString(t) + "_" + NatToString(n));
  }

  /** An id determines its timestamp and its counter, so different counters never share an id. */
  lemma ContactIdInjective(t1: int, n1: nat, t2: int, n2: nat)
    requires ContactId(t1, n1) == ContactId(t2, n2)
    ensures t1 == t2 && n1 == n2
  {
    IdTail(t1, n1);
    IdTail(t2, n2);
    IntToStringNoUnderscore(t1);
    IntToStringNoUnderscore(t2);
    SplitAtUnderscore(IntToString(t1), NatToString(n1), IntToString(t2), NatToString(n2));
    NatToStringInjective(n1, n2);
    IntToStringInjective(t1, t2);
  }

  lemma IntToStringInjective(s: int, t: int)
    requires IntToString(s) == IntToString(t)
    ensures s == t
  {
    if s < 0 && t < 0 {
      assert NatToString(-s) == IntToString(s)[1..] == IntToString(t)[1..] == NatToString(-t);
      NatToStringInjective(-s, -t);
    } else if s >= 0 && t >= 0 {
      NatToStringInjective(s, t);
    } else {
      assert false;
    }
  }

  lemma IdsDiffer(x: string, y: string, t1: int, t2: int, m: nat, n: nat)
    requires x == ContactId(t1, m) && y == ContactId(t2, n) && m != n
    ensures x != y
  {
    if x == y {
      ContactIdInjective(t1, m, t2, n);
    }
  }

  lemma ProtocolsDiffer(x: string, y: string, date: CalendarDate, m: nat, n: nat)
    requires x == Protocol(date, m) && y == Protocol(date, n) && m != n
    ensures x != y
  {
    if x == y {
      ProtocolInjective(date, m, n);
    }
  }

  /** `contacts.find((c) => c.id === id) || null`: the first record with that id, if any. */
  function FindContact(contacts: seq<Contact>, id: string): (r: Option<Contact>)
    ensures r.None? <==> forall c :: c in contacts ==> c.id != id
    ensures r.Some? ==> r.value.id == id && exists i :: (0 <= i < |contacts| && contacts[i] == r.value
      && forall k :: 0 <= k < i ==> contacts[k].id != id)
  {
    if contacts == [] then None
    else if contacts[0].id == id then Some(contacts[0])
    else
      var r := FindContact(contacts[1..], id);
      assert forall c :: c in contacts[1..] ==> c in contacts;
      if r.Some? then
        var i :| 0 <= i < |contacts[1..]| && contacts[1..][i] == r.value
          && forall k :: 0 <= k < i ==> contacts[1..][k].id != id;
        assert contacts[i + 1] == r.value;
        r
      else r
  }

  /** Element `i` of the three parallel sequences satisfies `p` with number `i + 1`. */
  ghost predicate EveryIndex<A, B, C>(xs: seq<A>, ys: seq<B>, zs: seq<C>, p: (A, B, C, nat) -> bool) {
    && |ys| == |xs| && |zs| == |xs|
    && forall i :: 0 <= i < |xs| ==> p(xs[i], ys[i], zs[i], i + 1)
  }

  /** A triple numbered one past the end extends the sequences. */
  lemma EveryIndexAppend<A, B, C>(xs: seq<A>, ys: seq<B>, zs: seq<C>, p: (A, B, C, nat) -> bool, x: A, y: B, z: C)
    requires EveryIndex(xs, ys, zs, p) && p(x, y, z, |xs| + 1)
    ensures EveryIndex(xs + [x], ys + [y], zs + [z], p)
  {
    var xs', ys', zs' := xs + [x], ys + [y], zs + [z];
    forall i | 0 <= i < |xs'| ensures p(xs'[i], ys'[i], zs'[i], i + 1) {
      if i < |xs| {
        assert xs'[i] == xs[i] && ys'[i] == ys[i] && zs'[i] == zs[i];
      }
    }
  }

  /**
   * Record `i` of `contacts` is the `i + 1`-th submission, made on
   * `dates[i]` at time `stamps[i]`: its id and protocol carry counter
   * `i + 1`, and its status is `Novo`.
   */
  ghost predicate Numbered(contacts: seq<Contact>, dates: seq<CalendarDate>, stamps: seq<int>) {
    EveryIndex(contacts, dates, stamps, NumberedRecord)
  }

  /** `c` is the record numbered `counter`, made on `date` at time `timestamp`. */
  ghost predicate NumberedRecord(c: Contact, date: CalendarDate, timestamp: int, counter: nat) {
    c.id == ContactId(timestamp, counter) && c.protocolo == Protocol(date, counter) && c.status == Novo
  }

  /** The record made for a submission carries that submission's number, date and time. */
  lemma NewContactNumbered(req: ContactRequest, date: CalendarDate, iso: string, timestamp: int, counter: nat)
    ensures NumberedRecord(NewContact(req, date, iso, timestamp, counter), date, timestamp, counter)
  {
  }

  /** In a numbered store, record `i` is the `i + 1`-th submission. */
  lemma NumberedAt(contacts: seq<Contact>, dates: seq<CalendarDate>, stamps: seq<int>, i: nat)
    requires Numbered(contacts, dates, stamps) && i < |contacts|
    ensures NumberedRecord(contacts[i], dates[i], stamps[i], i + 1)
  {
  }

  /** Appending the next submission keeps the numbering. */
  lemma NumberedAppend(contacts: seq<Contact>, dates: seq<CalendarDate>, stamps: seq<int>,
                       req: ContactRequest, date: CalendarDate, iso: string, timestamp: int)
    requires Numbered(contacts, dates, stamps)
    ensures Numbered(contacts + [NewContact(req, date, iso, timestamp, |contacts| + 1)],
                     dates + [date], stamps + [timestamp])
  {
    NewContactNumbered(req, date, iso, timestamp, |contacts| + 1);
    EveryIndexAppend(contacts, dates, stamps, NumberedRecord,
                     NewContact(req, date, iso, timestamp, |contacts| + 1), date, timestamp);
  }

  lemma NumberedPair(contacts: seq<Contact>, dates: seq<CalendarDate>, stamps: seq<int>, i: nat, j: nat)
    requires Numbered(contacts, dates, stamps) && i < j < |contacts|
    ensures contacts[i].id != contacts[j].id
    ensures dates[i] == dates[j] ==> contacts[i].protocolo != contacts[j].protocolo
  {
    RecordsDiffer(contacts[i], contacts[j], dates[i], dates[j], stamps[i], stamps[j], i + 1, j + 1);
  }

  /** Records with different numbers differ in id, and in protocol when made on the same date. */
  lemma RecordsDiffer(c: Contact, c': Contact, date: CalendarDate, date': CalendarDate,
                      timestamp: int, timestamp': int, m: nat, n: nat)
    requires NumberedRecord(c, date, timestamp, m) && NumberedRecord(c', date', timestamp', n) && m != n
    ensures c.id != c'.id
    ensures date == date' ==> c.protocolo != c'.protocolo
  {
    IdsDiffer(c.id, c'.id, timestamp, timestamp', m, n);
    if date == date' {
      ProtocolsDiffer(c.protocolo, c'.protocolo, date, m, n);
    }
  }

  lemma NumberedProtocolAt(contacts: seq<Contact>, dates: seq<CalendarDate>, stamps: seq<int>, i: nat)
    requires Numbered(contacts, dates, stamps) && i < |contacts| && ValidDate(dates[i])
    ensures |contacts[i].protocolo| >= 13 && AllDigits(contacts[i].protocolo[8..])
    ensures DecimalValue(contacts[i].protocolo[8..]) == i + 1
  {
    NumberedAt(contacts, dates, stamps, i);
    ProtocolLayout(dates[i], i + 1);
  }

  lemma NumberedIdsDistinct(contacts: seq<Contact>, dates: seq<CalendarDate>, stamps: seq<int>)
    requires Numbered(contacts, dates, stamps)
    ensures forall i, j :: 0 <= i < j < |contacts| ==> contacts[i].id != contacts[j].id
  {
    forall i, j | 0 <= i < j < |contacts| ensures contacts[i].id != contacts[j].id {
      NumberedPair(contacts, dates, stamps, i, j);
    }
  }

  lemma NumberedProtocols(contacts: seq<Contact>, dates: seq<CalendarDate>, stamps: seq<int>)
    requires Numbered(contacts, dates, stamps)
    ensures forall i :: 0 <= i < |contacts| && ValidDate(dates[i]) ==>
      (|contacts[i].protocolo| >= 13 && AllDigits(contacts[i].protocolo[8..])
        && DecimalValue(contacts[i].protocolo[8..]) == i + 1)
    ensures forall i, j :: 0 <= i < j < |contacts| && dates[i] == dates[j] ==>
      contacts[i].protocolo != contacts[j].protocolo
  {
    forall i | 0 <= i < |contacts| && ValidDate(dates[i])
      ensures |contacts[i].protocolo| >= 13 && AllDigits(contacts[i].protocolo[8..])
      ensures DecimalValue(contacts[i].protocolo[8..]) == i + 1
    {
      NumberedProtocolAt(contacts, dates, stamps, i);
    }
    forall i, j | 0 <= i < j < |contacts| && dates[i] == dates[j]
      ensures contacts[i].protocolo != contacts[j].protocolo
    {
      NumberedPair(contacts, dates, stamps, i, j);
    }
  }

  /**
   * The module-level state of `contactLogic.ts`: the stored submissions and
   * the counter that numbers the next one. The ghost fields remember the
   * date and timestamp each submission was made with.
   */
  class ContactRegister {
    var contacts: seq<Contact>
    var contactCounter: nat
    ghost var dates: seq<CalendarDate>
    ghost var stamps: seq<int>

    /**
     * The counter is always one past the number of records, and record `i`
     * is the `i + 1`-th submission: its id and protocol carry counter
     * `i + 1`, and its status is `Novo`.
     */
    ghost predicate Valid()
      reads this
    {
      && contactCounter == |contacts| + 1
      && Numbered(contacts, dates, stamps)
    }

    /** `const contacts = []; let contactCounter = 1;` */
    constructor ()
      ensures Valid()
      ensures contacts == [] && contactCounter == 1
    {
      contacts := [];
      contactCounter := 1;
      dates := [];
      stamps := [];
    }

    /**
     * `contactCreate`: stores the request as a new record at the end,
     * numbered by the counter, advances the counter by one, and answers the
     * new record's id and protocol.
     */
    method Create(req: ContactRequest, date: CalendarDate, iso: string, timestamp: int)
      returns (resp: CreateResponse)
      requires Valid()
      modifies this
      ensures Valid()
      ensures contacts == old(contacts) + [NewContact(req, date, iso, timestamp, old(contactCounter))]
      ensures contactCounter == old(contactCounter) + 1
      ensures dates == old(dates) + [date] && stamps == old(stamps) + [timestamp]
      ensures resp == CreateResponse(contacts[|contacts| - 1].id, contacts[|contacts| - 1].protocolo)
    {
      NumberedAppend(contacts, dates, stamps, req, date, iso, timestamp);
      var contact := NewContact(req, date, iso, timestamp, contactCounter);
      contacts := contacts + [contact];
      dates := dates + [date];
      stamps := stamps + [timestamp];
      contactCounter := contactCounter + 1;
      resp := CreateResponse(contact.id, contact.protocolo);
    }

    /** `contactList`: every record, in the order submitted. */
    method List() returns (r: seq<Contact>)
      requires Valid()
      ensures r == contacts
      ensures |r| == contactCounter - 1
    {
      r := contacts;
    }

    /** `contactGet`: the first record with the id, or `None`. */
    method Get(id: string) returns (r: Option<Contact>)
      ensures r == FindContact(contacts, id)
      ensures r.None? <==> forall c :: c in contacts ==> c.id != id
    {
      r := FindContact(contacts, id);
    }

    /** No two stored records share an id. */
    lemma IdsDistinct()
      requires Valid()
      ensures forall i, j :: 0 <= i < j < |contacts| ==> contacts[i].id != contacts[j].id
    {
      NumberedIdsDistinct(contacts, dates, stamps);
    }

    /**
     * The sequence part of record `i`'s protocol reads as `i + 1`: records
     * made one after the other are numbered one apart, so no two records
     * made on the same date share a protocol.
     */
    lemma ProtocolsNumbered()
      requires Valid()
      ensures forall i :: 0 <= i < |contacts| && ValidDate(dates[i]) ==>
        (|contacts[i].protocolo| >= 13 && AllDigits(contacts[i].protocolo[8..])
        && DecimalValue(contacts[i].protocolo[8..]) == i + 1)
      ensures forall i, j :: 0 <= i < j < |contacts| && dates[i] == dates[j] ==>
        contacts[i].protocolo != contacts[j].protocolo
    {
      NumberedProtocols(contacts, dates, stamps);
    }
  }
}
