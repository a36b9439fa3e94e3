/**
  What a metadata query asks for, and the filter that is sent to the search engine.

  `Read` gives the condition that a field, an operator and a value state; `Holds` says which documents
  satisfy it.  `Filter` is the filter tree, whose bounds are texts, and `Selects` says which documents
  the search engine finds with a tree.  The two meanings are proved equal exactly where they are.
 */
module QueryFilter {
  import opened Wrappers
  import opened Decimal
  import opened QuerySyntax
  import opened QueryDates
  import opened QueryGlob

  // ---------------------------------------------------------------- documents

  datatype Entry = Entry(name: string, value: string)

  /** An indexed object; modified is an instant in milliseconds. */
  datatype Document = Document(bucket: string, name: string, contentType: string, modified: int, size: int,
                               etag: string, custom: seq<Entry>)

  /** The search engine's clock and calendar: how long n months or years ending now are. */
  datatype Clock = Clock(now: int, instant: Date -> int, months: nat -> int, years: nat -> int)

  const SECOND := 1000

  function Length(clock: Clock, count: nat, unit: char): int {
    match unit
    case 's' => count * SECOND
    case 'm' => count * (60 * SECOND)
    case 'h' => count * (3600 * SECOND)
    case 'd' => count * (24 * 3600 * SECOND)
    case 'w' => count * (7 * 24 * 3600 * SECOND)
    case 'M' => clock.months(count)
    case _ => clock.years(count)
  }

  /** The units in milliseconds. */
  lemma UnitLengths(clock: Clock, n: nat)
    ensures Length(clock, n, 's') == 1000 * n && Length(clock, n, 'm') == 60_000 * n
    ensures Length(clock, n, 'h') == 3_600_000 * n && Length(clock, n, 'd') == 86_400_000 * n
    ensures Length(clock, n, 'w') == 604_800_000 * n
    ensures Length(clock, n, 'M') == clock.months(n) && Length(clock, n, 'y') == clock.years(n)
  {
  }

  // ---------------------------------------------------------------- the condition that a query states

  datatype Condition =
    | NameIs(glob: string)
    | TypeIs(glob: string)
    | CustomIs(key: string, glob: string)
    | EtagIs(text: string)
    | SizeIs(op: Operator, bytes: int)
    | AgeIs(op: Operator, count: nat, unit: char)
    | ModifiedIs(op: Operator, date: Date)

  datatype Complaint =
    Malformed | NameSyntax | TypeSyntax | DurationSyntax | DateSyntax | ModifiedSyntax | SizeSyntax | EtagSyntax
    | CustomSyntax

  predicate IsHash(s: string) {
    |s| == 32 && forall k :: 0 <= k < |s| ==> 'a' <= s[k] <= 'f' || IsDigit(s[k])
  }

  function Read(g: Groups): Result<Condition, Complaint> {
    if g.field == "name" then
      if g.op == Equal then Ok(NameIs(g.value)) else Err(NameSyntax)
    else if g.field == "contenttype" then
      if g.op == Equal then Ok(TypeIs(g.value)) else Err(TypeSyntax)
    else if g.field == "lastmodified" then
      if IsDuration(g.value) then
        if g.op == Equal then Err(DurationSyntax) else Ok(AgeIs(g.op, Count(g.value), Unit(g.value)))
      else
        match ParseDate(g.value)
        case None => Err(ModifiedSyntax)
        case Some(date) =>
          if g.op == Equal then Err(DateSyntax)
          else if date == ZERO_TIME then Err(ModifiedSyntax)
          else Ok(ModifiedIs(g.op, date))
    else if g.field == "size" then
      match Atoi(g.value)
      case None => Err(SizeSyntax)
      case Some(n) => if n < 0 || g.op == Equal then Err(SizeSyntax) else Ok(SizeIs(g.op, n))
    else if g.field == "etag" then
      if g.op == Equal && IsHash(g.value) then Ok(EtagIs(g.value)) else Err(EtagSyntax)
    else if IsCustom(g.field) then
      if g.op == Equal then Ok(CustomIs(g.field[|CUSTOM|..], g.value)) else Err(CustomSyntax)
    else Err(Malformed)
  }

  predicate Compare(op: Operator, x: int, y: int) {
    match op
    case AtMost => x <= y
    case Below => x < y
    case Equal => x == y
    case AtLeast => x >= y
    case Above => x > y
  }

  /** An age limit from above also asks that the object is not from the future. */
  ghost predicate Holds(c: Condition, doc: Document, clock: Clock) {
    match c
    case NameIs(glob) => StarMatches(glob, doc.name)
    case TypeIs(glob) => StarMatches(glob, doc.contentType)
    case CustomIs(key, glob) =>
      exists k :: 0 <= k < |doc.custom| && doc.custom[k].name == key && StarMatches(glob, doc.custom[k].value)
    case EtagIs(text) => doc.etag == text
    case SizeIs(op, bytes) => Compare(op, doc.size, bytes)
    case AgeIs(op, count, unit) =>
      var age := clock.now - doc.modified;
      Compare(op, age, Length(clock, count, unit)) && (op == AtMost ==> age >= 0) && (op == Below ==> age > 0)
    case ModifiedIs(op, date) => Compare(op, doc.modified, clock.instant(date))
  }

  // ---------------------------------------------------------------- filter trees

  /** bucket, name, meta.content_type, meta.mtime, meta.size, meta.etag and the two parts of an entry
      of meta.custom-string. */
  datatype Field = Bucket | Name | ContentType | ModifiedTime | Size | Etag | EntryName | EntryValue

  datatype Bound = Open | Including(text: string) | Excluding(text: string)

  /** Nested asks for one entry of the custom metadata that satisfies the whole inner query. */
  datatype Query =
    | Term(field: Field, text: string)
    | Wild(field: Field, pattern: string)
    | Range(field: Field, lower: Bound, upper: Bound)
    | Nested(inner: Query)
    | Bool(filter: seq<Query>, must: seq<Query>)

  datatype Scope = Whole(doc: Document) | Part(entry: Entry)

  function TextOf(field: Field, scope: Scope): Option<string> {
    match scope
    case Whole(doc) =>
      (match field
       case Bucket => Some(doc.bucket)
       case Name => Some(doc.name)
       case ContentType => Some(doc.contentType)
       case Etag => Some(doc.etag)
       case _ => None)
    case Part(entry) =>
      (match field
       case EntryName => Some(entry.name)
       case EntryValue => Some(entry.value)
       case _ => None)
  }

  function NumberOf(field: Field, scope: Scope): Option<int> {
    match scope
    case Whole(doc) =>
      if field == ModifiedTime then Some(doc.modified) else if field == Size then Some(doc.size) else None
    case Part(_) => None
  }

  const NOW := "now"
  const BEFORE_NOW := "now-"

  /** Date math as far as the filters use it: now, now minus a duration, or a date. */
  function InstantOf(text: string, clock: Clock): Option<int> {
    if text == NOW then Some(clock.now)
    else if BEFORE_NOW <= text then
      var duration := text[|BEFORE_NOW|..];
      if IsDuration(duration) && Unit(duration) != '|'
      then Some(clock.now - Length(clock, Count(duration), Unit(duration))) else None
    else
      match ParseDate(text)
      case None => None
      case Some(date) => Some(clock.instant(date))
  }

  function Limit(field: Field, text: string, clock: Clock): Option<int> {
    if field == ModifiedTime then InstantOf(text, clock) else if field == Size then Atoi(text) else None
  }

  predicate BoundReads(field: Field, b: Bound, clock: Clock) {
    b.Open? || Limit(field, b.text, clock).Some?
  }

  predicate FromBelow(field: Field, b: Bound, x: int, clock: Clock) {
    b.Open? || (match Limit(field, b.text, clock)
                case None => false
                case Some(limit) => if b.Including? then limit <= x else limit < x)
  }

  predicate FromAbove(field: Field, b: Bound, x: int, clock: Clock) {
    b.Open? || (match Limit(field, b.text, clock)
                case None => false
                case Some(limit) => if b.Including? then x <= limit else x < limit)
  }

  /** Every bound can be read; the search engine refuses any other tree. */
  predicate Readable(q: Query, clock: Clock) {
    match q
    case Range(field, lower, upper) => BoundReads(field, lower, clock) && BoundReads(field, upper, clock)
    case Nested(inner) => Readable(inner, clock)
    case Bool(filter, must) =>
      (forall k :: 0 <= k < |filter| ==> Readable(filter[k], clock))
      && forall k :: 0 <= k < |must| ==> Readable(must[k], clock)
    case _ => true
  }

  ghost predicate Selects(q: Query, scope: Scope, clock: Clock)
    decreases q
  {
    match q
    case Term(field, text) => TextOf(field, scope) == Some(text)
    case Wild(field, pattern) => TextOf(field, scope).Some? && EngineMatches(pattern, TextOf(field, scope).value)
    case Range(field, lower, upper) =>
      NumberOf(field, scope).Some?
      && FromBelow(field, lower, NumberOf(field, scope).value, clock)
      && FromAbove(field, upper, NumberOf(field, scope).value, clock)
    case Nested(inner) =>
      scope.Whole? && exists k :: 0 <= k < |scope.doc.custom| && Selects(inner, Part(scope.doc.custom[k]), clock)
    case Bool(filter, must) =>
      (forall k :: 0 <= k < |filter| ==> Selects(filter[k], scope, clock))
      && forall k :: 0 <= k < |must| ==> Selects(must[k], scope, clock)
  }

  // ---------------------------------------------------------------- the filter of a condition

  function Globbed(field: Field, glob: string): Query {
    if '*' in glob then Wild(field, glob) else Term(field, glob)
  }

  function Ago(duration: string): string {
    BEFORE_NOW + duration
  }

  /** An age at most d is an instant at least now-d: the comparison turns around. */
  function AgeRange(op: Operator, duration: string): Query {
    match op
    case AtMost => Range(ModifiedTime, Including(Ago(duration)), Including(NOW))
    case Below => Range(ModifiedTime, Excluding(Ago(duration)), Excluding(NOW))
    case AtLeast => Range(ModifiedTime, Open, Including(Ago(duration)))
    case _ => Range(ModifiedTime, Open, Excluding(Ago(duration)))
  }

  function OrderRange(field: Field, op: Operator, text: string): Query {
    match op
    case AtMost => Range(field, Open, Including(text))
    case Below => Range(field, Open, Excluding(text))
    case AtLeast => Range(field, Including(text), Open)
    case _ => Range(field, Excluding(text), Open)
  }

  /** The query that states the condition c found in the value. */
  function Asked(c: Condition, value: string): Query {
    match c
    case NameIs(glob) => Globbed(Name, glob)
    case TypeIs(glob) => Globbed(ContentType, glob)
    case CustomIs(key, glob) => Nested(EntryQuery(key, glob))
    case EtagIs(text) => Term(Etag, text)
    case SizeIs(op, bytes) => OrderRange(Size, op, Itoa(bytes))
    case AgeIs(op, _, _) => AgeRange(op, value)
    case ModifiedIs(op, date) => OrderRange(ModifiedTime, op, FormatDate(date))
  }

  function EntryQuery(key: string, glob: string): Query {
    Bool([], [Term(EntryName, key), Globbed(EntryValue, glob)])
  }

  /** Comparisons go to the filter clause, the others to the must clause. */
  predicate IsComparison(c: Condition) {
    c.SizeIs? || c.AgeIs? || c.ModifiedIs?
  }

  function Tree(bucket: string, c: Condition, value: string): Query {
    var here, asked := Term(Bucket, bucket), Asked(c, value);
    if IsComparison(c) then Bool([here, asked], []) else Bool([here], [asked])
  }

  // ---------------------------------------------------------------- the tree selects what the condition says

  lemma BoolOne(here: Query, q: Query, scope: Scope, clock: Clock)
    ensures Selects(Bool([here, q], []), scope, clock) <==> Selects(here, scope, clock) && Selects(q, scope, clock)
    ensures Selects(Bool([here], [q]), scope, clock) <==> Selects(here, scope, clock) && Selects(q, scope, clock)
    ensures Selects(Bool([], [here, q]), scope, clock) <==> Selects(here, scope, clock) && Selects(q, scope, clock)
    ensures Readable(Bool([here, q], []), clock) <==> Readable(here, clock) && Readable(q, clock)
    ensures Readable(Bool([here], [q]), clock) <==> Readable(here, clock) && Readable(q, clock)
    ensures Readable(Bool([], [here, q]), clock) <==> Readable(here, clock) && Readable(q, clock)
  {
    assert [here, q][0] == here && [here, q][1] == q && [here][0] == here && [q][0] == q;
  }

  /** A range asks what the comparison asks, once its text reads as the number meant. */
  lemma OrderRangeMeaning(field: Field, op: Operator, text: string, limit: int, scope: Scope, clock: Clock)
    requires op != Equal && NumberOf(field, scope).Some? && Limit(field, text, clock) == Some(limit)
    ensures Selects(OrderRange(field, op, text), scope, clock) <==> Compare(op, NumberOf(field, scope).value, limit)
    ensures Readable(OrderRange(field, op, text), clock)
  {
  }

  lemma AgoReads(duration: string, clock: Clock)
    requires IsDuration(duration)
    ensures InstantOf(Ago(duration), clock)
            == if Unit(duration) == '|' then None else Some(clock.now - Length(clock, Count(duration), Unit(duration)))
    ensures InstantOf(NOW, clock) == Some(clock.now)
  {
  }

  /** The text of a date is read as that date, never as date math. */
  lemma DateReads(date: Date, clock: Clock)
    requires ValidDate(date)
    ensures InstantOf(FormatDate(date), clock) == Some(clock.instant(date))
  {
    var text := FormatDate(date);
    FormatThenParse(date);
    PartsOfDate(date);
    assert IsDigit(Padded(date.year, 4)[0]);
    assert text[..4][0] == text[0];
    assert text[0] != BEFORE_NOW[0];
  }

  lemma AgeRangeMeaning(op: Operator, duration: string, doc: Document, clock: Clock)
    requires op != Equal && IsDuration(duration)
    ensures Readable(AgeRange(op, duration), clock) <==> Unit(duration) != '|'
    ensures Unit(duration) != '|' ==>
              (Selects(AgeRange(op, duration), Whole(doc), clock)
               <==> Holds(AgeIs(op, Count(duration), Unit(duration)), doc, clock))
  {
    AgoReads(duration, clock);
  }

  lemma GlobbedMeaning(field: Field, glob: string, scope: Scope, clock: Clock)
    requires TextOf(field, scope).Some? && OneWildcard(glob)
    ensures Selects(Globbed(field, glob), scope, clock) <==> StarMatches(glob, TextOf(field, scope).value)
  {
    ReadingsAgreeExactlyWhen(glob);
    assert SameReading(glob);
  }

  lemma GlobbedMisreads(field: Field, glob: string, scope: Scope, clock: Clock)
    requires TextOf(field, scope) == Some(Example(glob)) && !OneWildcard(glob)
    ensures Selects(Globbed(field, glob), scope, clock) && !StarMatches(glob, Example(glob))
  {
    Misread(glob);
  }

  /** One entry has to satisfy both parts of the inner query. */
  lemma EntryMeaning(key: string, glob: string, entry: Entry, clock: Clock)
    ensures var inner := EntryQuery(key, glob);
            Selects(inner, Part(entry), clock)
            <==> entry.name == key && Selects(Globbed(EntryValue, glob), Part(entry), clock)
  {
    BoolOne(Term(EntryName, key), Globbed(EntryValue, glob), Part(entry), clock);
  }

  lemma CustomMeaning(key: string, glob: string, doc: Document, clock: Clock)
    requires OneWildcard(glob)
    ensures var inner := EntryQuery(key, glob);
            Selects(Nested(inner), Whole(doc), clock) <==> Holds(CustomIs(key, glob), doc, clock)
  {
    var inner := EntryQuery(key, glob);
    forall k | 0 <= k < |doc.custom|
      ensures Selects(inner, Part(doc.custom[k]), clock)
              <==> doc.custom[k].name == key && StarMatches(glob, doc.custom[k].value)
    {
      EntryMeaning(key, glob, doc.custom[k], clock);
      GlobbedMeaning(EntryValue, glob, Part(doc.custom[k]), clock);
    }
  }

  // ---------------------------------------------------------------- the compiler is right, and where

  /** No value mixes a star with what else is special to the search engine, and no duration ends in the bar. */
  predicate Exact(c: Condition) {
    match c
    case NameIs(glob) => OneWildcard(glob)
    case TypeIs(glob) => OneWildcard(glob)
    case CustomIs(_, glob) => OneWildcard(glob)
    case AgeIs(_, _, unit) => unit != '|'
    case _ => true
  }

  /** The search engine can read the tree, and finds with it exactly the objects of the bucket that
      satisfy the condition, whatever they are and whenever it runs. */
  ghost predicate Faithful(q: Query, bucket: string, c: Condition) {
    forall doc, clock :: Agrees(q, bucket, c, doc, clock)
  }

  ghost predicate Agrees(q: Query, bucket: string, c: Condition, doc: Document, clock: Clock) {
    Readable(q, clock) && (Selects(q, Whole(doc), clock) <==> doc.bucket == bucket && Holds(c, doc, clock))
  }

  /** What reading makes sure of. */
  predicate Stated(c: Condition, value: string) {
    match c
    case SizeIs(op, bytes) => op != Equal && 0 <= bytes <= MAX_INT
    case AgeIs(op, count, unit) => op != Equal && IsDuration(value) && count == Count(value) && unit == Unit(value)
    case ModifiedIs(op, date) => op != Equal && ValidDate(date) && date != ZERO_TIME
    case _ => true
  }

  lemma ReadStates(g: Groups)
    requires Read(g).Ok?
    ensures Stated(Read(g).value, g.value)
  {
  }

  lemma TreeParts(bucket: string, c: Condition, value: string, scope: Scope, clock: Clock)
    ensures var q, here, asked := Tree(bucket, c, value), Term(Bucket, bucket), Asked(c, value);
            (Readable(q, clock) <==> Readable(asked, clock))
            && (Selects(q, scope, clock) <==> Selects(here, scope, clock) && Selects(asked, scope, clock))
  {
    BoolOne(Term(Bucket, bucket), Asked(c, value), scope, clock);
  }

  lemma {:induction false} AskedMeaning(c: Condition, value: string, doc: Document, clock: Clock)
    requires Stated(c, value) && Exact(c)
    ensures Readable(Asked(c, value), clock)
    ensures Selects(Asked(c, value), Whole(doc), clock) <==> Holds(c, doc, clock)
  {
    var scope := Whole(doc);
    match c {
      case NameIs(glob) => GlobbedMeaning(Name, glob, scope, clock);
      case TypeIs(glob) => GlobbedMeaning(ContentType, glob, scope, clock);
      case CustomIs(key, glob) =>
        CustomMeaning(key, glob, doc, clock);
        EntryReads(key, glob, clock);
      case EtagIs(_) =>
      case SizeIs(op, bytes) =>
        AtoiItoa(bytes);
        OrderRangeMeaning(Size, op, Itoa(bytes), bytes, scope, clock);
      case AgeIs(op, _, _) => AgeRangeMeaning(op, value, doc, clock);
      case ModifiedIs(op, date) =>
        DateReads(date, clock);
        OrderRangeMeaning(ModifiedTime, op, FormatDate(date), clock.instant(date), scope, clock);
    }
  }

  lemma EntryReads(key: string, glob: string, clock: Clock)
    ensures Readable(Nested(EntryQuery(key, glob)), clock)
  {
  }

  /** An object that is found although it does not satisfy the condition, or a query that cannot be read. */
  lemma AskedFails(c: Condition, value: string, bucket: string) returns (doc: Document, clock: Clock)
    requires Stated(c, value) && !Exact(c)
    ensures doc.bucket == bucket
    ensures Readable(Asked(c, value), clock) ==> Selects(Asked(c, value), Whole(doc), clock) && !Holds(c, doc, clock)
  {
    clock := Clock(0, d => 0, n => 0, n => 0);
    match c {
      case NameIs(glob) =>
        doc := Document(bucket, Example(glob), "", 0, 0, "", []);
        GlobbedMisreads(Name, glob, Whole(doc), clock);
      case TypeIs(glob) =>
        doc := Document(bucket, "", Example(glob), 0, 0, "", []);
        GlobbedMisreads(ContentType, glob, Whole(doc), clock);
      case CustomIs(key, glob) =>
        var entry := Entry(key, Example(glob));
        doc := Document(bucket, "", "", 0, 0, "", [entry]);
        GlobbedMisreads(EntryValue, glob, Part(entry), clock);
        EntryMeaning(key, glob, entry, clock);
        assert Selects(EntryQuery(key, glob), Part(doc.custom[0]), clock);
      case AgeIs(op, _, _) =>
        doc := Document(bucket, "", "", 0, 0, "", []);
        AgeRangeMeaning(op, value, doc, clock);
    }
  }

  /** Compilation keeps the meaning of exactly these accepted queries. */
  lemma FaithfulExactlyWhen(bucket: string, g: Groups)
    requires Read(g).Ok?
    ensures Faithful(Tree(bucket, Read(g).value, g.value), bucket, Read(g).value) <==> Exact(Read(g).value)
  {
    var c := Read(g).value;
    var q := Tree(bucket, c, g.value);
    ReadStates(g);
    if Exact(c) {
      forall doc, clock ensures Agrees(q, bucket, c, doc, clock) {
        AskedMeaning(c, g.value, doc, clock);
        TreeParts(bucket, c, g.value, Whole(doc), clock);
      }
    } else {
      var doc, clock := AskedFails(c, g.value, bucket);
      TreeParts(bucket, c, g.value, Whole(doc), clock);
      assert !Agrees(q, bucket, c, doc, clock);
    }
  }
}
