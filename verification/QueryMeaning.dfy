/** What the filter of an accepted query selects, field by field. */
module QueryMeaning {
  import opened Wrappers
  import opened Decimal
  import opened QuerySyntax
  import opened QueryDates
  import opened QueryGlob
  import opened QueryFilter

  /** The filter that is built for the groups. */
  function Built(bucket: string, g: Groups): Query
    requires Read(g).Ok?
  {
    Tree(bucket, Read(g).value, g.value)
  }

  lemma BuiltAgrees(bucket: string, g: Groups, doc: Document, clock: Clock)
    requires Read(g).Ok? && Exact(Read(g).value)
    ensures Selects(Built(bucket, g), Whole(doc), clock) <==> doc.bucket == bucket && Holds(Read(g).value, doc, clock)
  {
    FaithfulExactlyWhen(bucket, g);
    assert Agrees(Built(bucket, g), bucket, Read(g).value, doc, clock);
  }

  lemma CustomIsNoFixed(field: string)
    requires IsCustom(field)
    ensures field != "name" && field != "contenttype" && field != "lastmodified" && field != "size" && field != "etag"
  {
    assert field[0] == CUSTOM[0] == 'x';
  }

  lemma NameSelects(bucket: string, g: Groups)
    requires Read(g).Ok? && g.field == "name" && OneWildcard(g.value)
    ensures forall doc: Document, clock: Clock ::
              Selects(Built(bucket, g), Whole(doc), clock)
              <==> doc.bucket == bucket && StarMatches(g.value, doc.name)
  {
    forall doc: Document, clock: Clock
      ensures Selects(Built(bucket, g), Whole(doc), clock)
              <==> doc.bucket == bucket && StarMatches(g.value, doc.name)
    {
      BuiltAgrees(bucket, g, doc, clock);
    }
  }

  lemma TypeSelects(bucket: string, g: Groups)
    requires Read(g).Ok? && g.field == "contenttype" && OneWildcard(g.value)
    ensures forall doc: Document, clock: Clock ::
              Selects(Built(bucket, g), Whole(doc), clock)
              <==> doc.bucket == bucket && StarMatches(g.value, doc.contentType)
  {
    forall doc: Document, clock: Clock
      ensures Selects(Built(bucket, g), Whole(doc), clock)
              <==> doc.bucket == bucket && StarMatches(g.value, doc.contentType)
    {
      BuiltAgrees(bucket, g, doc, clock);
    }
  }

  lemma EtagSelects(bucket: string, g: Groups)
    requires Read(g).Ok? && g.field == "etag"
    ensures forall doc: Document, clock: Clock ::
              Selects(Built(bucket, g), Whole(doc), clock)
              <==> doc.bucket == bucket && doc.etag == g.value
  {
    forall doc: Document, clock: Clock
      ensures Selects(Built(bucket, g), Whole(doc), clock)
              <==> doc.bucket == bucket && doc.etag == g.value
    {
      BuiltAgrees(bucket, g, doc, clock);
    }
  }

  lemma CustomSelects(bucket: string, g: Groups, key: string)
    requires Read(g).Ok? && g.field == "x-amz-meta-" + key && IsCustom(g.field) && OneWildcard(g.value)
    ensures forall doc: Document, clock: Clock ::
              Selects(Built(bucket, g), Whole(doc), clock)
              <==> doc.bucket == bucket
                   && exists k :: 0 <= k < |doc.custom| && doc.custom[k].name == key
                                  && StarMatches(g.value, doc.custom[k].value)
  {
    CustomIsNoFixed(g.field);
    assert g.field[|CUSTOM|..] == key;
    forall doc: Document, clock: Clock
      ensures Selects(Built(bucket, g), Whole(doc), clock)
              <==> doc.bucket == bucket
                   && exists k :: 0 <= k < |doc.custom| && doc.custom[k].name == key
                                  && StarMatches(g.value, doc.custom[k].value)
    {
      BuiltAgrees(bucket, g, doc, clock);
    }
  }

  lemma SizeSelects(bucket: string, g: Groups, n: int)
    requires Read(g).Ok? && g.field == "size" && Atoi(g.value) == Some(n)
    ensures forall doc: Document, clock: Clock ::
              Selects(Built(bucket, g), Whole(doc), clock)
              <==> doc.bucket == bucket
                   && (g.op == AtMost ==> doc.size <= n) && (g.op == Below ==> doc.size < n)
                   && (g.op == AtLeast ==> doc.size >= n) && (g.op == Above ==> doc.size > n)
  {
    forall doc: Document, clock: Clock
      ensures Selects(Built(bucket, g), Whole(doc), clock)
              <==> doc.bucket == bucket
                   && (g.op == AtMost ==> doc.size <= n) && (g.op == Below ==> doc.size < n)
                   && (g.op == AtLeast ==> doc.size >= n) && (g.op == Above ==> doc.size > n)
    {
      BuiltAgrees(bucket, g, doc, clock);
    }
  }

  lemma AgeSelects(bucket: string, g: Groups)
    requires Read(g).Ok? && g.field == "lastmodified" && IsDuration(g.value) && Unit(g.value) != '|'
    ensures forall doc: Document, clock: Clock ::
              Selects(Built(bucket, g), Whole(doc), clock)
              <==> doc.bucket == bucket
                   && (var age, d := clock.now - doc.modified, Length(clock, Count(g.value), Unit(g.value));
                       && (g.op == AtMost ==> 0 <= age <= d) && (g.op == Below ==> 0 < age < d)
                       && (g.op == AtLeast ==> age >= d) && (g.op == Above ==> age > d))
  {
    forall doc: Document, clock: Clock
      ensures Selects(Built(bucket, g), Whole(doc), clock)
              <==> doc.bucket == bucket
                   && (var age, d := clock.now - doc.modified, Length(clock, Count(g.value), Unit(g.value));
                       && (g.op == AtMost ==> 0 <= age <= d) && (g.op == Below ==> 0 < age < d)
                       && (g.op == AtLeast ==> age >= d) && (g.op == Above ==> age > d))
    {
      BuiltAgrees(bucket, g, doc, clock);
    }
  }

  lemma DateSelects(bucket: string, g: Groups, date: Date)
    requires Read(g).Ok? && g.field == "lastmodified" && ParseDate(g.value) == Some(date)
    ensures forall doc: Document, clock: Clock ::
              Selects(Built(bucket, g), Whole(doc), clock)
              <==> doc.bucket == bucket
                   && (g.op == AtMost ==> doc.modified <= clock.instant(date))
                   && (g.op == Below ==> doc.modified < clock.instant(date))
                   && (g.op == AtLeast ==> doc.modified >= clock.instant(date))
                   && (g.op == Above ==> doc.modified > clock.instant(date))
  {
    if IsDuration(g.value) { DurationIsNoDate(g.value); }
    forall doc: Document, clock: Clock
      ensures Selects(Built(bucket, g), Whole(doc), clock)
              <==> doc.bucket == bucket
                   && (g.op == AtMost ==> doc.modified <= clock.instant(date))
                   && (g.op == Below ==> doc.modified < clock.instant(date))
                   && (g.op == AtLeast ==> doc.modified >= clock.instant(date))
                   && (g.op == Above ==> doc.modified > clock.instant(date))
    {
      BuiltAgrees(bucket, g, doc, clock);
    }
  }

  /** The search engine can read every filter but that of a duration in the unit the bar. */
  lemma ReadableUnlessBar(bucket: string, g: Groups, clock: Clock)
    requires Read(g).Ok?
    ensures Readable(Built(bucket, g), clock)
            <==> !(g.field == "lastmodified" && IsDuration(g.value) && g.value[|g.value| - 1] == '|')
  {
    var c := Read(g).value;
    var doc := Document("", "", "", 0, 0, "", []);
    ReadStates(g);
    TreeParts(bucket, c, g.value, Whole(doc), clock);
    if c.AgeIs? {
      AgeRangeMeaning(c.op, g.value, doc, clock);
    } else {
      AskedReads(c, g.value, clock);
    }
  }

  lemma AskedReads(c: Condition, value: string, clock: Clock)
    requires Stated(c, value) && !c.AgeIs?
    ensures Readable(Asked(c, value), clock)
  {
    match c
    case CustomIs(key, glob) => EntryReads(key, glob, clock);
    case SizeIs(op, bytes) => AtoiItoa(bytes);
    case ModifiedIs(op, date) => DateReads(date, clock);
    case _ =>
  }

  lemma BuiltReads(bucket: string, g: Groups)
    requires Read(g).Ok?
    ensures forall clock: Clock ::
              Readable(Built(bucket, g), clock)
              <==> !(g.field == "lastmodified" && IsDuration(g.value) && g.value[|g.value| - 1] == '|')
  {
    forall clock: Clock
      ensures Readable(Built(bucket, g), clock)
              <==> !(g.field == "lastmodified" && IsDuration(g.value) && g.value[|g.value| - 1] == '|')
    {
      ReadableUnlessBar(bucket, g, clock);
    }
  }

  lemma AnyCustomSelects(bucket: string, g: Groups)
    requires Read(g).Ok? && IsCustom(g.field) && OneWildcard(g.value)
    ensures forall key: string :: g.field == "x-amz-meta-" + key ==>
              forall doc: Document, clock: Clock ::
                Selects(Built(bucket, g), Whole(doc), clock)
                <==> doc.bucket == bucket
                     && exists k :: 0 <= k < |doc.custom| && doc.custom[k].name == key
                                    && StarMatches(g.value, doc.custom[k].value)
  {
    forall key: string | g.field == "x-amz-meta-" + key
      ensures forall doc: Document, clock: Clock ::
                Selects(Built(bucket, g), Whole(doc), clock)
                <==> doc.bucket == bucket
                     && exists k :: 0 <= k < |doc.custom| && doc.custom[k].name == key
                                    && StarMatches(g.value, doc.custom[k].value)
    {
      CustomSelects(bucket, g, key);
    }
  }

  /** Which queries are refused, and how. */
  lemma Refusals(g: Groups)
    ensures g.field == "name" ==> if g.op == Equal then Read(g).Ok? else Read(g) == Err(NameSyntax)
    ensures g.field == "contenttype" ==> if g.op == Equal then Read(g).Ok? else Read(g) == Err(TypeSyntax)
    ensures IsCustom(g.field) ==> if g.op == Equal then Read(g).Ok? else Read(g) == Err(CustomSyntax)
    ensures g.field == "etag" ==>
              if g.op == Equal && |g.value| == 32
                 && forall k :: 0 <= k < |g.value| ==> 'a' <= g.value[k] <= 'f' || '0' <= g.value[k] <= '9'
              then Read(g).Ok? else Read(g) == Err(EtagSyntax)
    ensures g.field == "size" ==>
              if g.op != Equal && Atoi(g.value).Some? && Atoi(g.value).value >= 0
              then Read(g).Ok? else Read(g) == Err(SizeSyntax)
    ensures g.field == "lastmodified" ==>
              if IsDuration(g.value) then
                if g.op != Equal then Read(g).Ok? else Read(g) == Err(DurationSyntax)
              else if ParseDate(g.value).None? then Read(g) == Err(ModifiedSyntax)
              else if g.op == Equal then Read(g) == Err(DateSyntax)
              else if ParseDate(g.value) == Some(Date(1, 1, 1, 0, 0)) then Read(g) == Err(ModifiedSyntax)
              else Read(g).Ok?
  {
    if IsCustom(g.field) { CustomIsNoFixed(g.field); }
  }

  /** All fields together. */
  lemma FilterSelects(bucket: string, g: Groups, q: Query)
    requires Read(g).Ok? && q == Built(bucket, g)
    ensures forall clock: Clock ::
              Readable(q, clock)
              <==> !(g.field == "lastmodified" && IsDuration(g.value) && g.value[|g.value| - 1] == '|')
    ensures g.field == "name" && OneWildcard(g.value) ==>
              forall doc: Document, clock: Clock ::
                Selects(q, Whole(doc), clock) <==> doc.bucket == bucket && StarMatches(g.value, doc.name)
    ensures g.field == "contenttype" && OneWildcard(g.value) ==>
              forall doc: Document, clock: Clock ::
                Selects(q, Whole(doc), clock) <==> doc.bucket == bucket && StarMatches(g.value, doc.contentType)
    ensures g.field == "etag" ==>
              forall doc: Document, clock: Clock ::
                Selects(q, Whole(doc), clock) <==> doc.bucket == bucket && doc.etag == g.value
    ensures IsCustom(g.field) && OneWildcard(g.value) ==>
              forall key: string :: g.field == "x-amz-meta-" + key ==>
                forall doc: Document, clock: Clock ::
                  Selects(q, Whole(doc), clock)
                  <==> doc.bucket == bucket
                       && exists k :: 0 <= k < |doc.custom| && doc.custom[k].name == key
                                      && StarMatches(g.value, doc.custom[k].value)
    ensures g.field == "size" ==>
              forall doc: Document, clock: Clock ::
                Selects(q, Whole(doc), clock)
                <==> doc.bucket == bucket
                     && (g.op == AtMost ==> doc.size <= Atoi(g.value).value)
                     && (g.op == Below ==> doc.size < Atoi(g.value).value)
                     && (g.op == AtLeast ==> doc.size >= Atoi(g.value).value)
                     && (g.op == Above ==> doc.size > Atoi(g.value).value)
    ensures g.field == "lastmodified" && IsDuration(g.value) && g.value[|g.value| - 1] != '|' ==>
              forall doc: Document, clock: Clock ::
                Selects(q, Whole(doc), clock)
                <==> doc.bucket == bucket
                     && (var age, d := clock.now - doc.modified, Length(clock, Count(g.value), Unit(g.value));
                         && (g.op == AtMost ==> 0 <= age <= d) && (g.op == Below ==> 0 < age < d)
                         && (g.op == AtLeast ==> age >= d) && (g.op == Above ==> age > d))
    ensures g.field == "lastmodified" && ParseDate(g.value).Some? ==>
              forall doc: Document, clock: Clock ::
                Selects(q, Whole(doc), clock)
                <==> doc.bucket == bucket
                     && (g.op == AtMost ==> doc.modified <= clock.instant(ParseDate(g.value).value))
                     && (g.op == Below ==> doc.modified < clock.instant(ParseDate(g.value).value))
                     && (g.op == AtLeast ==> doc.modified >= clock.instant(ParseDate(g.value).value))
                     && (g.op == Above ==> doc.modified > clock.instant(ParseDate(g.value).value))
  {
    Refusals(g);
    BuiltReads(bucket, g);
    if g.field == "name" && OneWildcard(g.value) { NameSelects(bucket, g); }
    if g.field == "contenttype" && OneWildcard(g.value) { TypeSelects(bucket, g); }
    if g.field == "etag" { EtagSelects(bucket, g); }
    if g.field == "size" { SizeSelects(bucket, g, Atoi(g.value).value); }
    if IsCustom(g.field) && OneWildcard(g.value) { AnyCustomSelects(bucket, g); }
    if g.field == "lastmodified" && IsDuration(g.value) {
      DurationIsNoDate(g.value);
      if g.value[|g.value| - 1] != '|' { AgeSelects(bucket, g); }
    } else if g.field == "lastmodified" {
      DateSelects(bucket, g, ParseDate(g.value).value);
    }
  }
}
