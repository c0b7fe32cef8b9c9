/** The three state stores and the codec they share. */
module StateStores {
  import opened Domain
  import opened Sequences
  import opened AmountText
  import opened ObservationLog

  // ---------- The text of a decimal ----------

  function SignedDigits(n: int): string {
    if n >= 0 then "+" + Digits(n) else "-" + Digits(-n)
  }

  function PlainText(d: Decimal): string
    requires d.exponent <= 0
  {
    Render(PlacePoint(Digits(d.coefficient), -d.exponent))
  }

  /** The digits of a number with one of them in front of the point. */
  function Mantissa(c: nat): Decimal {
    Decimal(c, 1 - |Digits(c)|)
  }

  function ScientificText(d: Decimal): string {
    var m := Mantissa(d.coefficient);
    PlainText(m) + "E" + SignedDigits(d.exponent - m.exponent)
  }

  /** Every digit is written, trailing zeros too; very large or very small numbers with an exponent. */
  function DecimalText(d: Decimal): string {
    if d.exponent <= 0 && d.exponent + |Digits(d.coefficient)| > -6 then PlainText(d) else ScientificText(d)
  }

  function ParseSigned(s: string): Option<int> {
    if |s| < 2 || !AllDigits(s[1..]) then None
    else
      var magnitude: int := NumberOf(s[1..]);
      if s[0] == '+' then Some(magnitude) else if s[0] == '-' then Some(-magnitude) else None
  }

  function ParseDecimal(s: string): Option<Decimal> {
    var mark := IndexOf(s, 'E');
    match ParseAmount(s[..mark])
    case None => None
    case Some(mantissa) =>
      if mark == |s| then Some(mantissa)
      else match ParseSigned(s[mark + 1..])
        case None => None
        case Some(shift) => Some(Decimal(mantissa.coefficient, mantissa.exponent + shift))
  }

  lemma SignedReads(n: int)
    ensures ParseSigned(SignedDigits(n)) == Some(n)
  {
    var s := SignedDigits(n);
    var magnitude := if n >= 0 then n else -n;
    DigitsRead(magnitude);
    assert s[1..] == Digits(magnitude);
  }

  predicate Unmarked(s: string) {
    forall k :: 0 <= k < |s| ==> s[k] != 'E'
  }

  lemma RenderIsUnmarked(p: Positional)
    requires AllDigits(p.whole + p.fraction)
    ensures Unmarked(Render(p))
  {
    var s := Render(p);
    forall k | 0 <= k < |s| ensures s[k] != 'E' {
      if k < |p.whole| {
        assert s[k] == (p.whole + p.fraction)[k];
      } else if k > |p.whole| {
        assert s[k] == (p.whole + p.fraction)[k - 1];
      }
    }
  }

  lemma RenderReads(p: Positional, d: Decimal)
    requires AllDigits(p.whole) && ParsePositional(p) == Some(d)
    ensures ParseAmount(Render(p)) == Some(d) && Unmarked(Render(p))
  {
    SplitOfRender(p);
    RenderIsUnmarked(p);
  }

  lemma PlacedReads(digits: string, d: Decimal)
    requires AllDigits(digits) && digits != "" && NumberOf(digits) == d.coefficient && d.exponent <= 0
    ensures var s := Render(PlacePoint(digits, -d.exponent)); ParseAmount(s) == Some(d) && Unmarked(s)
  {
    PointParses(digits, -d.exponent);
    RenderReads(PlacePoint(digits, -d.exponent), d);
  }

  lemma PlainTextReads(d: Decimal)
    requires d.exponent <= 0
    ensures ParseAmount(PlainText(d)) == Some(d) && Unmarked(PlainText(d))
  {
    DigitsRead(d.coefficient);
    PlacedReads(Digits(d.coefficient), d);
  }

  lemma MarkFound(mantissa: string, rest: string)
    requires Unmarked(mantissa)
    ensures IndexOf(mantissa, 'E') == |mantissa|
    ensures IndexOf(mantissa + "E" + rest, 'E') == |mantissa|
  {
    assert (mantissa + "E" + rest)[|mantissa|] == 'E';
  }

  lemma UnmarkedReads(s: string, d: Decimal)
    requires Unmarked(s) && ParseAmount(s) == Some(d)
    ensures ParseDecimal(s) == Some(d)
  {
    MarkFound(s, "");
    assert s[..|s|] == s;
  }

  lemma MarkedReads(s: string, mantissa: string, shift: int, d: Decimal)
    requires s == mantissa + "E" + SignedDigits(shift) && Unmarked(mantissa)
    requires ParseAmount(mantissa) == Some(Decimal(d.coefficient, d.exponent - shift))
    ensures ParseDecimal(s) == Some(d)
  {
    MarkFound(mantissa, SignedDigits(shift));
    SignedReads(shift);
    assert s[..|mantissa|] == mantissa && s[|mantissa| + 1..] == SignedDigits(shift);
  }

  lemma ScientificIsLossless(d: Decimal)
    ensures ParseDecimal(ScientificText(d)) == Some(d)
  {
    var m := Mantissa(d.coefficient);
    PlainTextReads(m);
    MarkedReads(ScientificText(d), PlainText(m), d.exponent - m.exponent, d);
  }

  /** The text gives back the very same decimal, trailing zeros included. */
  lemma DecimalTextIsLossless(d: Decimal)
    ensures ParseDecimal(DecimalText(d)) == Some(d)
  {
    ScientificIsLossless(d);
    if d.exponent <= 0 {
      PlainTextReads(d);
      UnmarkedReads(PlainText(d), d);
    }
  }

  // ---------- Snapshots ----------

  datatype MoneyText = MoneyText(amount: string, currency: Currency)

  /** The stored form of a snapshot. */
  datatype Entry = Entry(
    id: ProductId,
    providerId: ProviderId,
    foldedName: string,
    currentPrice: MoneyText,
    originalPrice: Option<MoneyText>,
    discount: real,
    url: Url,
    available: bool,
    timestamp: Timestamp)

  datatype CodecError = InvalidDecimal | ViolatesInvariants | KeyMismatch

  function EncodeMoney(m: Money): MoneyText {
    MoneyText(DecimalText(m.amount), m.currency)
  }

  function EncodeSnapshot(s: Snapshot): Entry {
    var p := s.product;
    Entry(p.id, p.providerId, p.foldedName, EncodeMoney(p.currentPrice),
          if p.originalPrice.None? then None else Some(EncodeMoney(p.originalPrice.value)),
          p.discount, p.url, p.available, s.timestamp)
  }

  function DecodeMoney(m: MoneyText): Result<Money, CodecError> {
    match ParseDecimal(m.amount)
    case None => Err(InvalidDecimal)
    case Some(amount) => Ok(Money(amount, m.currency))
  }

  function DecodeOptionalMoney(m: Option<MoneyText>): Result<Option<Money>, CodecError> {
    if m.None? then Ok(None)
    else match DecodeMoney(m.value)
      case Err(e) => Err(e)
      case Ok(money) => Ok(Some(money))
  }

  function DecodeSnapshot(e: Entry, key: ProductId): Result<Snapshot, CodecError> {
    match DecodeMoney(e.currentPrice)
    case Err(error) => Err(error)
    case Ok(current) => match DecodeOptionalMoney(e.originalPrice)
      case Err(error) => Err(error)
      case Ok(original) =>
        var product := Product(e.id, e.providerId, e.foldedName, current, original, e.discount, e.url, e.available);
        if !ValidProduct(product) then Err(ViolatesInvariants)
        else if product.id != key then Err(KeyMismatch)
        else Ok(Snapshot(product, e.timestamp))
  }

  /** What was encoded is decoded under its own key and refused under any other. */
  lemma SnapshotsSurvive(s: Snapshot, key: ProductId)
    requires ValidProduct(s.product)
    ensures DecodeSnapshot(EncodeSnapshot(s), key) == if key == s.product.id then Ok(s) else Err(KeyMismatch)
  {
    DecimalTextIsLossless(s.product.currentPrice.amount);
    if s.product.originalPrice.Some? {
      DecimalTextIsLossless(s.product.originalPrice.value.amount);
    }
  }

  /** A stored entry is accepted exactly if its amounts are decimals, it meets the product's invariants and it
  is filed under its own identifier; the snapshot then says what the entry says. */
  lemma DecodingAccepts(e: Entry, key: ProductId)
    ensures var r := DecodeSnapshot(e, key);
      && (r.Ok? <==>
            && ParseDecimal(e.currentPrice.amount).Some?
            && (e.originalPrice.Some? ==>
                  ParseDecimal(e.originalPrice.value.amount).Some? && e.originalPrice.value.currency == e.currentPrice.currency)
            && 0.0 <= e.discount <= 100.0 && e.id == key)
      && (r.Ok? ==>
            var s := r.value;
            && s.timestamp == e.timestamp
            && s.product.id == e.id && s.product.providerId == e.providerId && s.product.foldedName == e.foldedName
            && s.product.discount == e.discount && s.product.url == e.url && s.product.available == e.available
            && s.product.currentPrice == Money(ParseDecimal(e.currentPrice.amount).value, e.currentPrice.currency)
            && (s.product.originalPrice.Some? <==> e.originalPrice.Some?)
            && (e.originalPrice.Some? ==>
                  s.product.originalPrice.value
                  == Money(ParseDecimal(e.originalPrice.value.amount).value, e.originalPrice.value.currency)))
  {
  }

  /** Numbers are written without exponent down to six zeros after the point. */
  lemma ExponentIsWritten(d: Decimal)
    ensures (exists k :: 0 <= k < |DecimalText(d)| && DecimalText(d)[k] == 'E') <==>
            d.exponent > 0 || d.exponent + |Digits(d.coefficient)| - 1 < -6
  {
    if d.exponent > 0 || d.exponent + |Digits(d.coefficient)| - 1 < -6 {
      var k := |PlainText(Mantissa(d.coefficient))|;
      assert DecimalText(d)[k] == 'E';
    } else {
      PlainTextReads(d);
    }
  }

  // ---------- One map, three stores ----------

  /** The reference: the last snapshot saved for a product. */
  function LastSaved(saves: seq<Snapshot>, id: ProductId): Option<Snapshot> {
    if saves == [] then None
    else if saves[|saves| - 1].product.id == id then Some(saves[|saves| - 1])
    else LastSaved(saves[..|saves| - 1], id)
  }

  ghost predicate AllValid(saves: seq<Snapshot>) {
    forall s :: s in saves ==> ValidProduct(s.product)
  }

  function LogAfter(saves: seq<Snapshot>): Log {
    if saves == [] then EMPTY_LOG else Append(LogAfter(saves[..|saves| - 1]), saves[|saves| - 1])
  }

  type Document = map<ProductId, Entry>

  function SaveEntry(document: Option<Document>, s: Snapshot): Option<Document> {
    Some((if document.None? then map[] else document.value)[s.product.id := EncodeSnapshot(s)])
  }

  function LoadEntry(document: Option<Document>, id: ProductId): Result<Option<Snapshot>, CodecError> {
    if document.None? || id !in document.value then Ok(None)
    else match DecodeSnapshot(document.value[id], id)
      case Err(e) => Err(e)
      case Ok(s) => Ok(Some(s))
  }

  function DocumentAfter(saves: seq<Snapshot>): Option<Document> {
    if saves == [] then None else SaveEntry(DocumentAfter(saves[..|saves| - 1]), saves[|saves| - 1])
  }

  function MemoryAfter(saves: seq<Snapshot>): map<ProductId, Snapshot> {
    if saves == [] then map[]
    else MemoryAfter(saves[..|saves| - 1])[saves[|saves| - 1].product.id := saves[|saves| - 1]]
  }

  function OfProduct(id: ProductId): Snapshot -> bool {
    (s: Snapshot) => s.product.id == id
  }

  lemma {:induction false} DocumentHoldsLast(saves: seq<Snapshot>, id: ProductId)
    requires AllValid(saves)
    ensures LoadEntry(DocumentAfter(saves), id) == Ok(LastSaved(saves, id))
  {
    if saves != [] {
      var init, last := saves[..|saves| - 1], saves[|saves| - 1];
      DocumentHoldsLast(init, id);
      SnapshotsSurvive(last, last.product.id);
    }
  }

  function LoadSnapshot(snapshots: map<ProductId, Snapshot>, id: ProductId): Option<Snapshot> {
    if id in snapshots then Some(snapshots[id]) else None
  }

  lemma {:induction false} MemoryHoldsLast(saves: seq<Snapshot>, id: ProductId)
    ensures LoadSnapshot(MemoryAfter(saves), id) == LastSaved(saves, id)
  {
    if saves != [] {
      MemoryHoldsLast(saves[..|saves| - 1], id);
    }
  }

  lemma MemoryAnswers(snapshots: map<ProductId, Snapshot>, id: ProductId)
    ensures forall saves :: snapshots == MemoryAfter(saves) ==> LoadSnapshot(snapshots, id) == LastSaved(saves, id)
  {
    forall saves ensures LoadSnapshot(MemoryAfter(saves), id) == LastSaved(saves, id) {
      MemoryHoldsLast(saves, id);
    }
  }

  function LoadRow(rows: seq<Row>, id: ProductId): Option<Snapshot> {
    match LatestOf(rows, id)
    case None => None
    case Some(row) => Some(row.snapshot)
  }

  lemma LoadAfterAppend(log: Log, s: Snapshot, id: ProductId)
    ensures LoadRow(Append(log, s).rows, id) == if s.product.id == id then Some(s) else LoadRow(log.rows, id)
  {
    var rows := Append(log, s).rows;
    assert rows[..|rows| - 1] == log.rows;
  }

  lemma {:induction false} LogHoldsAll(saves: seq<Snapshot>, id: ProductId)
    ensures LoadRow(LogAfter(saves).rows, id) == LastSaved(saves, id)
    ensures HistoryOf(LogAfter(saves).rows, id) == Filter(saves, OfProduct(id))
    ensures ValidLog(LogAfter(saves))
  {
    if saves != [] {
      var init, last := saves[..|saves| - 1], saves[|saves| - 1];
      LogHoldsAll(init, id);
      AppendKeepsValid(LogAfter(init), last);
      HistoryOfAppend(LogAfter(init), last, id);
      LoadAfterAppend(LogAfter(init), last, id);
    }
  }

  /** After any saves the log, the document and the dictionary answer alike, and the log's history is
  every save of the product in order. */
  lemma StoresAgree(saves: seq<Snapshot>, id: ProductId)
    requires AllValid(saves)
    ensures LoadEntry(DocumentAfter(saves), id) == Ok(LastSaved(saves, id))
    ensures LoadSnapshot(MemoryAfter(saves), id) == LastSaved(saves, id)
    ensures LoadRow(LogAfter(saves).rows, id) == LastSaved(saves, id)
    ensures HistoryOf(LogAfter(saves).rows, id) == Filter(saves, OfProduct(id))
  {
    DocumentHoldsLast(saves, id);
    MemoryHoldsLast(saves, id);
    LogHoldsAll(saves, id);
  }

  class InMemoryStateStore {
    var snapshots: map<ProductId, Snapshot>

    constructor ()
      ensures snapshots == MemoryAfter([])
    {
      snapshots := map[];
    }

    function Load(id: ProductId): (r: Option<Snapshot>)
      reads this
      ensures forall saves :: snapshots == MemoryAfter(saves) ==> r == LastSaved(saves, id)
    {
      MemoryAnswers(snapshots, id);
      LoadSnapshot(snapshots, id)
    }

    method Save(snapshot: Snapshot)
      modifies this
      ensures snapshots == old(snapshots)[snapshot.product.id := snapshot]
      ensures forall saves :: old(snapshots) == MemoryAfter(saves) ==> snapshots == MemoryAfter(saves + [snapshot])
    {
      snapshots := snapshots[snapshot.product.id := snapshot];
      assert forall saves: seq<Snapshot> :: (saves + [snapshot])[..|saves|] == saves;
    }
  }

  /** `document` is the file's contents; there is no file before the first save. */
  class JsonStateStore {
    var document: Option<Document>

    constructor ()
      ensures document == DocumentAfter([])
    {
      document := None;
    }

    /** An entry that cannot be decoded is an error; what the store itself saved always can be. */
    method Load(id: ProductId) returns (r: Result<Option<Snapshot>, CodecError>)
      ensures r == LoadEntry(document, id)
      ensures forall saves ::
                document == DocumentAfter(saves) && AllValid(saves) ==>
                  r == Ok(LastSaved(saves, id))
    {
      forall saves | document == DocumentAfter(saves) && AllValid(saves)
        ensures LoadEntry(document, id) == Ok(LastSaved(saves, id))
      {
        DocumentHoldsLast(saves, id);
      }
      if document.None? || id !in document.value {
        return Ok(None);
      }
      var decoded := DecodeSnapshot(document.value[id], id);
      r := if decoded.Err? then Err(decoded.error) else Ok(Some(decoded.value));
    }

    method Save(snapshot: Snapshot)
      modifies this
      ensures document == SaveEntry(old(document), snapshot)
      ensures forall saves :: old(document) == DocumentAfter(saves) ==> document == DocumentAfter(saves + [snapshot])
    {
      var entries := if document.None? then map[] else document.value;
      document := Some(entries[snapshot.product.id := EncodeSnapshot(snapshot)]);
      assert forall saves: seq<Snapshot> :: (saves + [snapshot])[..|saves|] == saves;
    }
  }
}
