/** Printing and parsing resource names, and the keys of the message lists they address. */
module Arn {
  import opened Wrappers
  import opened Text
  import opened Resources

  datatype ArnError = InvalidARN(text: string)

  function ServiceName(s: Service): string {
    if s == SQS then "sqs" else if s == SNS then "sns" else ""
  }

  function ParseService(s: string): Service {
    if s == "sqs" then SQS else if s == "sns" then SNS else 0
  }

  function ARN(r: Resource, region: string): string {
    "arn:aws:" + ServiceName(r.service) + ":" + region + ":" + r.accountID + ":" + r.name
  }

  function ParseARN(s: string): Result<Resource, ArnError> {
    if !("arn:aws:sqs" <= s) && !("arn:aws:sns" <= s) then Err(InvalidARN(s))
    else
      var tokens := Split(s, ':');
      if |tokens| != 6 && |tokens| != 7 then Err(InvalidARN(s))
      else if tokens[4] == "" || tokens[5] == "" then Err(InvalidARN(s))
      else Ok(Resource(ParseService(tokens[2]), tokens[4], tokens[5], []))
  }

  /** The id of the subscription. */
  function ParseSubscription(s: string): Result<string, ArnError> {
    if ParseARN(s).Err? then Err(InvalidARN(s))
    else
      var tokens := Split(s, ':');
      if |tokens| != 7 then Err(InvalidARN(s)) else Ok(tokens[6])
  }

  // ---------------------------------------------------------------- printing and parsing

  function Printed(service: string, region: string, rest: string): string {
    "arn" + [':'] + ("aws" + [':'] + (service + [':'] + (region + [':'] + rest)))
  }

  lemma ArnIsPrinted(r: Resource, region: string)
    ensures ARN(r, region) == Printed(ServiceName(r.service), region, r.accountID + ":" + r.name)
  {
  }

  /** Splitting the printed form: the fixed part, the region, and whatever account and name hold. */
  lemma PrintedTokens(service: string, region: string, rest: string)
    requires ':' !in service && ':' !in region
    ensures Split(Printed(service, region, rest), ':') == ["arn", "aws", service, region] + Split(rest, ':')
  {
    var a := region + [':'] + rest;
    var b := service + [':'] + a;
    SplitHead(region, rest, ':');
    SplitHead(service, a, ':');
    assert Split(b, ':') == [service, region] + Split(rest, ':');
    FixedHead(b);
  }

  lemma FixedHead(rest: string)
    ensures Split("arn" + [':'] + ("aws" + [':'] + rest), ':') == ["arn", "aws"] + Split(rest, ':')
  {
    SplitHead("aws", rest, ':');
    SplitHead("arn", "aws" + [':'] + rest, ':');
  }

  lemma SplitPair(a: string, b: string)
    requires ':' !in a
    ensures Split(a + ":" + b, ':') == [a] + Split(b, ':')
  {
    SplitHead(a, b, ':');
  }

  ghost predicate Addressable(r: Resource) {
    && (r.service == SQS || r.service == SNS)
    && r.accountID != "" && ':' !in r.accountID
    && r.name != "" && ':' !in r.name
  }

  lemma PrintedPrefix(r: Resource, region: string)
    ensures "arn:aws:sqs" <= ARN(r, region) || "arn:aws:sns" <= ARN(r, region)
      <==> (r.service == SQS || r.service == SNS)
  {
    var s := ARN(r, region);
    if r.service == SQS {
      assert s == "arn:aws:sqs" + (":" + region + ":" + r.accountID + ":" + r.name);
    } else if r.service == SNS {
      assert s == "arn:aws:sns" + (":" + region + ":" + r.accountID + ":" + r.name);
    } else {
      assert s[8] == ':';
      assert "arn:aws:sqs"[8] == 's' && "arn:aws:sns"[8] == 's';
    }
  }

  lemma ColonSplits(s: string)
    ensures |Split(s, ':')| == 1 <==> ':' !in s
    ensures |Split(s, ':')| >= 2 ==> ':' in s
  {
  }

  /** For a region without a colon, which the server configures, parsing gives service, account
      and name back exactly for the resources whose names are not empty and hold no colon. */
  lemma RoundTrip(r: Resource, region: string)
    requires ':' !in region
    ensures ParseARN(ARN(r, region)) == Ok(Resource(r.service, r.accountID, r.name, [])) <==> Addressable(r)
    ensures r.service == SQS ==> ARN(r, region) == "arn:aws:sqs:" + region + ":" + r.accountID + ":" + r.name
    ensures r.service == SNS ==> ARN(r, region) == "arn:aws:sns:" + region + ":" + r.accountID + ":" + r.name
  {
    ArnText(r, region);
    PrintedPrefix(r, region);
    PlainTokens(r, region);
    PairTokens(r.accountID, r.name);
  }

  lemma ArnText(r: Resource, region: string)
    ensures r.service == SQS ==> ARN(r, region) == "arn:aws:sqs:" + region + ":" + r.accountID + ":" + r.name
    ensures r.service == SNS ==> ARN(r, region) == "arn:aws:sns:" + region + ":" + r.accountID + ":" + r.name
  {
  }

  lemma PlainTokens(r: Resource, region: string)
    requires ':' !in region
    ensures Split(ARN(r, region), ':')
      == ["arn", "aws", ServiceName(r.service), region] + Split(r.accountID + ":" + r.name, ':')
  {
    ArnIsPrinted(r, region);
    PrintedTokens(ServiceName(r.service), region, r.accountID + ":" + r.name);
  }

  /** Two parts come back from a pair exactly when neither holds a colon. */
  lemma PairTokens(a: string, b: string)
    ensures |Split(a + ":" + b, ':')| >= 2
    ensures Split(a + ":" + b, ':')[0] == a && Split(a + ":" + b, ':')[1] == b <==> ':' !in a && ':' !in b
    ensures ':' !in a && ':' !in b ==> Split(a + ":" + b, ':') == [a, b]
  {
    SplitParts(a + ":" + b, ':');
    if ':' !in a {
      SplitPair(a, b);
      if ':' !in b { SplitLast(b, ':'); }
    } else {
      ColonSplits(a + ":" + b);
    }
  }

  /** A subscription's name is the topic's with an id appended: both parsers read their part of it. */
  lemma SubscriptionRoundTrip(r: Resource, region: string, id: string)
    requires ':' !in region && Addressable(r)
    ensures ParseARN(ARN(r, region) + ":" + id).Ok? <==> ':' !in id
    ensures ':' !in id ==> ParseARN(ARN(r, region) + ":" + id) == Ok(Resource(r.service, r.accountID, r.name, []))
    ensures ':' !in id ==> ParseSubscription(ARN(r, region) + ":" + id) == Ok(id)
    ensures ':' in id ==> ParseSubscription(ARN(r, region) + ":" + id).Err?
    ensures ParseSubscription(ARN(r, region)).Err?
  {
    PrintedPrefix(r, region);
    assert ARN(r, region) <= ARN(r, region) + ":" + id;
    SubscriptionTokens(r, region, id);
    ColonSplits(id);
    if ':' !in id { SplitLast(id, ':'); }
    PlainTokens(r, region);
    PairTokens(r.accountID, r.name);
  }

  lemma SubscriptionTokens(r: Resource, region: string, id: string)
    requires ':' !in region && Addressable(r)
    ensures Split(ARN(r, region) + ":" + id, ':')
      == ["arn", "aws", ServiceName(r.service), region, r.accountID, r.name] + Split(id, ':')
  {
    var rest := r.accountID + ":" + (r.name + ":" + id);
    ArnIsPrinted(r, region);
    assert ARN(r, region) + ":" + id == Printed(ServiceName(r.service), region, rest);
    PrintedTokens(ServiceName(r.service), region, rest);
    SplitPair(r.accountID, r.name + ":" + id);
    SplitPair(r.name, id);
  }

  /** Cutting a string at its first separator. */
  lemma {:induction false} Cut(s: string) returns (rest: string)
    requires |Split(s, ':')| >= 2
    ensures s == Split(s, ':')[0] + [':'] + rest && Split(rest, ':') == Split(s, ':')[1..]
  {
    if s[0] == ':' {
      rest := s[1..];
    } else {
      rest := Cut(s[1..]);
      assert s == [s[0]] + s[1..];
    }
  }

  lemma Uncut(s: string)
    requires |Split(s, ':')| == 1
    ensures s == Split(s, ':')[0]
  {
  }

  /** The other direction: whatever parses to a known service is the printed form of the result,
      possibly followed by one more part. */
  lemma ParsedPrintsBack(s: string) returns (region: string, id: Option<string>)
    requires ParseARN(s).Ok? && ParseARN(s).value.service != 0
    ensures Addressable(ParseARN(s).value) && ':' !in region
    ensures s == ARN(ParseARN(s).value, region) + if id.Some? then ":" + id.value else ""
    ensures id.Some? ==> ParseSubscription(s) == Ok(id.value)
  {
    var tokens := Split(s, ':');
    SplitParts(s, ':');
    region := tokens[3];
    id := if |tokens| == 7 then Some(tokens[6]) else None;
    FixedTokens(s);
    var a := Cut(s);
    var b := Cut(a);
    var names := PrintedRest(b, id);
    WithId(ParseARN(s).value, region, id);
  }

  lemma FixedTokens(s: string)
    requires ParseARN(s).Ok?
    ensures Split(s, ':')[..2] == ["arn", "aws"]
  {
    assert s[..8] == "arn:aws:";
    FirstTokens(s, s[8..]);
  }

  lemma FirstTokens(s: string, rest: string)
    requires s == "arn:aws:" + rest
    ensures |Split(s, ':')| >= 2 && Split(s, ':')[..2] == ["arn", "aws"]
  {
    FixedHead(rest);
    assert s == "arn" + [':'] + ("aws" + [':'] + rest);
  }

  lemma WithId(r: Resource, region: string, id: Option<string>)
    ensures Printed(ServiceName(r.service), region,
                    r.accountID + ":" + r.name + if id.Some? then ":" + id.value else "")
      == ARN(r, region) + if id.Some? then ":" + id.value else ""
  {
  }

  /** Service, region, account, name and possibly an id. */
  lemma PrintedRest(b: string, id: Option<string>) returns (names: string)
    requires var t := Split(b, ':'); |t| == if id.Some? then 5 else 4
    requires id.Some? ==> id.value == Split(b, ':')[4]
    ensures b == Split(b, ':')[0] + [':'] + (Split(b, ':')[1] + [':'] + names)
    ensures names == Split(b, ':')[2] + ":" + Split(b, ':')[3] + if id.Some? then ":" + id.value else ""
  {
    var c := Cut(b);
    names := Cut(c);
    var d := Cut(names);
    if id.Some? {
      var e := Cut(d);
      Uncut(e);
    } else {
      Uncut(d);
    }
  }

  // ---------------------------------------------------------------- list keys

  /** The list a producer pushes to. */
  function ProducerKey(r: Resource): string {
    ServiceName(r.service) + ":" + r.accountID + ":" + r.name
  }

  /** The list a consumer reads, for the account and queue name of its request. */
  function ConsumerKey(accountID: string, queueName: string): string {
    "sqs:" + accountID + ":" + queueName
  }

  /** A producer of a queue and a consumer meet on the same list exactly when the account and the
      queue are the same: for accounts without a colon, different queues never share a list. */
  lemma KeysAgree(r: Resource, accountID: string, queueName: string)
    requires ':' !in r.accountID && ':' !in accountID
    ensures ProducerKey(r) == ConsumerKey(accountID, queueName)
      <==> r.service == SQS && r.accountID == accountID && r.name == queueName
  {
    var a, b := ProducerKey(r), ConsumerKey(accountID, queueName);
    assert a == ServiceName(r.service) + ":" + (r.accountID + ":" + r.name);
    assert b == "sqs" + ":" + (accountID + ":" + queueName);
    SplitPair(ServiceName(r.service), r.accountID + ":" + r.name);
    SplitPair("sqs", accountID + ":" + queueName);
    SplitPair(r.accountID, r.name);
    SplitPair(accountID, queueName);
    SplitParts(r.name, ':');
    SplitParts(queueName, ':');
    if a == b {
      var tokens := Split(a, ':');
      assert tokens[0] == ServiceName(r.service) == "sqs";
      assert tokens[1] == r.accountID == accountID;
      assert tokens[2..] == Split(r.name, ':') == Split(queueName, ':');
    }
  }
}
