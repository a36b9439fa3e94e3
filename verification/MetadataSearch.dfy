/** The search handler, from the text of the query to the filter that is sent. */
module MetadataSearch {
  import opened Wrappers
  import opened Decimal
  import opened QuerySyntax
  import opened QueryDates
  import opened QueryGlob
  import opened QueryFilter
  import opened QueryMeaning
  import Text

  /** Adding a clause to the query under construction. */
  function Filter(q: Query, clause: Query): Query
    requires q.Bool?
  {
    Bool(q.filter + [clause], q.must)
  }

  function Must(q: Query, clause: Query): Query
    requires q.Bool?
  {
    Bool(q.filter, q.must + [clause])
  }

  /** Removing the first "x-amz-meta-" leaves the name of the custom field. */
  lemma CustomName(field: string)
    requires IsCustom(field)
    ensures Text.RemoveFirst(field, CUSTOM) == field[|CUSTOM|..]
  {
  }

  lemma TwoClauses(a: Query, b: Query)
    ensures Filter(Filter(Bool([], []), a), b) == Bool([a, b], [])
    ensures Must(Filter(Bool([], []), a), b) == Bool([a], [b])
    ensures Must(Must(Bool([], []), a), b) == Bool([], [a, b])
  {
  }

  /** The branch for lastmodified: a duration bounds the age, a date bounds the time itself. */
  method LastModified(q: Query, g: Groups) returns (r: Result<Query, Complaint>)
    requires q.Bool? && g.field == "lastmodified"
    ensures match Read(g)
            case Err(complaint) => r == Err(complaint)
            case Ok(c) => r == Ok(Filter(q, Asked(c, g.value)))
  {
    var boolQuery := q;
    var matchedDuration := IsDuration(g.value);
    if matchedDuration {
      DurationIsNoDate(g.value);
      var since := BEFORE_NOW + g.value;
      match g.op {
        case AtMost => boolQuery := Filter(boolQuery, Range(ModifiedTime, Including(since), Including(NOW)));
        case Below => boolQuery := Filter(boolQuery, Range(ModifiedTime, Excluding(since), Excluding(NOW)));
        case AtLeast => boolQuery := Filter(boolQuery, Range(ModifiedTime, Open, Including(since)));
        case Above => boolQuery := Filter(boolQuery, Range(ModifiedTime, Open, Excluding(since)));
        case Equal => return Err(DurationSyntax);
      }
    }
    var startTime := ParseDate(g.value);
    if startTime.Some? {
      var text := FormatDate(startTime.value);
      match g.op {
        case AtMost => boolQuery := Filter(boolQuery, Range(ModifiedTime, Open, Including(text)));
        case Below => boolQuery := Filter(boolQuery, Range(ModifiedTime, Open, Excluding(text)));
        case AtLeast => boolQuery := Filter(boolQuery, Range(ModifiedTime, Including(text), Open));
        case Above => boolQuery := Filter(boolQuery, Range(ModifiedTime, Excluding(text), Open));
        case Equal => return Err(DateSyntax);
      }
    }
    if !matchedDuration && (startTime.None? || startTime.value == ZERO_TIME) { return Err(ModifiedSyntax); }
    r := Ok(boolQuery);
  }

  /** The switch over the field: a query that can be read becomes its tree, any other the complaint. */
  method Compile(bucket: string, g: Groups) returns (r: Result<Query, Complaint>)
    ensures match Read(g)
            case Err(complaint) => r == Err(complaint)
            case Ok(c) => r == Ok(Tree(bucket, c, g.value))
  {
    var boolQuery := Bool([], []);
    boolQuery := Filter(boolQuery, Term(Bucket, bucket));
    if g.field == "name" {
      if g.op != Equal { return Err(NameSyntax); }
      boolQuery := Must(boolQuery, if '*' in g.value then Wild(Name, g.value) else Term(Name, g.value));
    } else if g.field == "contenttype" {
      if g.op != Equal { return Err(TypeSyntax); }
      boolQuery := Must(boolQuery, if '*' in g.value then Wild(ContentType, g.value) else Term(ContentType, g.value));
    } else if g.field == "lastmodified" {
      var dated := LastModified(boolQuery, g);
      if dated.Err? { return dated; }
      boolQuery := dated.value;
    } else if g.field == "size" {
      var size := Atoi(g.value);
      if size.Some? && size.value >= 0 {
        var text := Itoa(size.value);
        match g.op {
          case AtMost => boolQuery := Filter(boolQuery, Range(Size, Open, Including(text)));
          case Below => boolQuery := Filter(boolQuery, Range(Size, Open, Excluding(text)));
          case AtLeast => boolQuery := Filter(boolQuery, Range(Size, Including(text), Open));
          case Above => boolQuery := Filter(boolQuery, Range(Size, Excluding(text), Open));
          case Equal => return Err(SizeSyntax);
        }
      } else {
        return Err(SizeSyntax);
      }
    } else if g.field == "etag" {
      if g.op == Equal && IsHash(g.value) {
        boolQuery := Must(boolQuery, Term(Etag, g.value));
      } else {
        return Err(EtagSyntax);
      }
    } else if IsCustom(g.field) {
      if g.op != Equal { return Err(CustomSyntax); }
      CustomName(g.field);
      var customMetaName := Text.RemoveFirst(g.field, CUSTOM);
      var bq := Bool([], []);
      bq := Must(bq, Term(EntryName, customMetaName));
      bq := Must(bq, if '*' in g.value then Wild(EntryValue, g.value) else Term(EntryValue, g.value));
      TwoClauses(Term(EntryName, customMetaName), Globbed(EntryValue, g.value));
      boolQuery := Must(boolQuery, Nested(bq));
    } else {
      return Err(Malformed);
    }
    TwoClauses(Term(Bucket, bucket), Asked(Read(g).value, g.value));
    r := Ok(boolQuery);
  }

  /** From the text of a query to the filter: how the query is cut, what is refused, which filters can
      be read, and what they select, for every document and clock. */
  method Search(bucket: string, query: string) returns (r: Result<Query, Complaint>, ghost g: Groups)
    ensures if Parse(query).Some? then g == Parse(query).value else r == Err(Malformed)
    ensures Parse(query).Some? ==>
              && (g.field == "name" ==> if g.op == Equal then r.Ok? else r == Err(NameSyntax))
              && (g.field == "contenttype" ==> if g.op == Equal then r.Ok? else r == Err(TypeSyntax))
              && (IsCustom(g.field) ==> if g.op == Equal then r.Ok? else r == Err(CustomSyntax))
    ensures Parse(query).Some? && g.field == "etag" ==>
              if g.op == Equal && |g.value| == 32
                 && forall k :: 0 <= k < |g.value| ==> 'a' <= g.value[k] <= 'f' || '0' <= g.value[k] <= '9'
              then r.Ok? else r == Err(EtagSyntax)
    ensures Parse(query).Some? && g.field == "size" ==>
              if g.op != Equal && Atoi(g.value).Some? && Atoi(g.value).value >= 0
              then r.Ok? else r == Err(SizeSyntax)
    ensures Parse(query).Some? && g.field == "lastmodified" ==>
              if IsDuration(g.value) then
                if g.op != Equal then r.Ok? else r == Err(DurationSyntax)
              else if ParseDate(g.value).None? then r == Err(ModifiedSyntax)
              else if g.op == Equal then r == Err(DateSyntax)
              else if ParseDate(g.value) == Some(Date(1, 1, 1, 0, 0)) then r == Err(ModifiedSyntax)
              else r.Ok?
    ensures r.Ok? ==>
              forall clock: Clock ::
                Readable(r.value, clock)
                <==> !(g.field == "lastmodified" && IsDuration(g.value) && g.value[|g.value| - 1] == '|')
    ensures r.Ok? && g.field == "name" && OneWildcard(g.value) ==>
              forall doc: Document, clock: Clock ::
                Selects(r.value, Whole(doc), clock) <==> doc.bucket == bucket && StarMatches(g.value, doc.name)
    ensures r.Ok? && g.field == "contenttype" && OneWildcard(g.value) ==>
              forall doc: Document, clock: Clock ::
                Selects(r.value, Whole(doc), clock) <==> doc.bucket == bucket && StarMatches(g.value, doc.contentType)
    ensures r.Ok? && g.field == "etag" ==>
              forall doc: Document, clock: Clock ::
                Selects(r.value, Whole(doc), clock) <==> doc.bucket == bucket && doc.etag == g.value
    ensures r.Ok? && IsCustom(g.field) && OneWildcard(g.value) ==>
              forall key: string :: g.field == "x-amz-meta-" + key ==>
                forall doc: Document, clock: Clock ::
                  Selects(r.value, Whole(doc), clock)
                  <==> doc.bucket == bucket
                       && exists k :: 0 <= k < |doc.custom| && doc.custom[k].name == key
                                      && StarMatches(g.value, doc.custom[k].value)
    ensures r.Ok? && g.field == "size" ==>
              forall doc: Document, clock: Clock ::
                Selects(r.value, Whole(doc), clock)
                <==> doc.bucket == bucket
                     && (g.op == AtMost ==> doc.size <= Atoi(g.value).value)
                     && (g.op == Below ==> doc.size < Atoi(g.value).value)
                     && (g.op == AtLeast ==> doc.size >= Atoi(g.value).value)
                     && (g.op == Above ==> doc.size > Atoi(g.value).value)
    ensures r.Ok? && g.field == "lastmodified" && IsDuration(g.value) && g.value[|g.value| - 1] != '|' ==>
              forall doc: Document, clock: Clock ::
                Selects(r.value, Whole(doc), clock)
                <==> doc.bucket == bucket
                     && (var age, d := clock.now - doc.modified, Length(clock, Count(g.value), Unit(g.value));
                         && (g.op == AtMost ==> 0 <= age <= d) && (g.op == Below ==> 0 < age < d)
                         && (g.op == AtLeast ==> age >= d) && (g.op == Above ==> age > d))
    ensures r.Ok? && g.field == "lastmodified" && ParseDate(g.value).Some? ==>
              forall doc: Document, clock: Clock ::
                Selects(r.value, Whole(doc), clock)
                <==> doc.bucket == bucket
                     && (g.op == AtMost ==> doc.modified <= clock.instant(ParseDate(g.value).value))
                     && (g.op == Below ==> doc.modified < clock.instant(ParseDate(g.value).value))
                     && (g.op == AtLeast ==> doc.modified >= clock.instant(ParseDate(g.value).value))
                     && (g.op == Above ==> doc.modified > clock.instant(ParseDate(g.value).value))
    ensures r.Ok? ==> Read(g).Ok? && (Faithful(r.value, bucket, Read(g).value) <==> Exact(Read(g).value))
  {
    NothingInEmpty();
    g := Groups("", Equal, "");
    if query == "" { return Err(Malformed), g; }
    var groups := Parse(query);
    if groups.None? { return Err(Malformed), g; }
    g := groups.value;
    r := Compile(bucket, groups.value);
    Refusals(g);
    if r.Ok? {
      FilterSelects(bucket, g, r.value);
      FaithfulExactlyWhen(bucket, g);
    }
  }
}
