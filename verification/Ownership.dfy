// Whether cleanup owns a resource it discovered: study-1/src/cleanup/resource-names.ts,
// ownership.ts and ownership-judgement.ts.

module ResourceNames {
  import opened Wrappers

  const STACK_RESOURCE_TYPE := "AWS::CloudFormation::Stack"
  const QUEUE_RESOURCE_TYPE := "AWS::SQS::Queue"
  const FUNCTION_RESOURCE_TYPE := "AWS::Lambda::Function"
  const EVENT_SOURCE_MAPPING_RESOURCE_TYPE := "AWS::Lambda::EventSourceMapping"
  const TABLE_RESOURCE_TYPE := "AWS::DynamoDB::Table"
  const TABLE_STREAM_RESOURCE_TYPE := "AWS::DynamoDB::TableStream"
  const LOG_GROUP_RESOURCE_TYPE := "AWS::Logs::LogGroup"

  // The anchored patterns: fixed text, and runs of characters outside `stops`. Every run is followed
  // by the end or by text that begins with one of its stops, so taking the longest run is the only
  // way to match.
  datatype Piece =
    | Fixed(text: string)
    | Run(stops: set<char>, least: nat)
    | Named(stops: set<char>)

  type Pattern = seq<Piece>

  const STACK_ARN: Pattern := ArnOf("cloudformation", "stack/", {'/'}) + [Fixed("/"), Run({'/'}, 1)]
  const QUEUE_URL: Pattern :=
    [Fixed("https://"), Run({'/'}, 1), Fixed("/"), Run({'/'}, 1), Fixed("/"), Named({'/'})]
  const QUEUE_ARN: Pattern := ArnOf("sqs", "", {':', '/'})
  const FUNCTION_ARN: Pattern := ArnOf("lambda", "function:", {':'})
  const EVENT_SOURCE_MAPPING_ARN: Pattern := ArnOf("lambda", "event-source-mapping:", {':'})
  const TABLE_ARN: Pattern := ArnOf("dynamodb", "table/", {'/'})
  const TABLE_STREAM_ARN: Pattern := ArnOf("dynamodb", "table/", {'/'}) + [Fixed("/stream/"), Run({'/'}, 1)]
  const LOG_GROUP_ARN: Pattern := ArnOf("logs", "log-group:", {':'})

  function ArnOf(service: string, prefix: string, stops: set<char>): Pattern {
    [Fixed("arn:"), Run({':'}, 1), Fixed(":" + service + ":"), Run({':'}, 0), Fixed(":"), Run({':'}, 0),
     Fixed(":" + prefix), Named(stops)]
  }

  function Patterns(resourceType: string): seq<Pattern> {
    if resourceType == STACK_RESOURCE_TYPE then [STACK_ARN]
    else if resourceType == QUEUE_RESOURCE_TYPE then [QUEUE_URL, QUEUE_ARN]
    else if resourceType == FUNCTION_RESOURCE_TYPE then [FUNCTION_ARN]
    else if resourceType == EVENT_SOURCE_MAPPING_RESOURCE_TYPE then [EVENT_SOURCE_MAPPING_ARN]
    else if resourceType == TABLE_RESOURCE_TYPE then [TABLE_ARN]
    else if resourceType == TABLE_STREAM_RESOURCE_TYPE then [TABLE_STREAM_ARN]
    else if resourceType == LOG_GROUP_RESOURCE_TYPE then [LOG_GROUP_ARN, LOG_GROUP_ARN + [Fixed(":*")]]
    else []
  }

  function RunLength(text: string, stops: set<char>): (n: nat)
    ensures n <= |text|
  {
    if text == [] || text[0] in stops then 0 else 1 + RunLength(text[1..], stops)
  }

  // The named run of a pattern that matches the whole text.
  function Match(pattern: Pattern, text: string, name: Option<string>): Option<string>
    decreases |pattern|
  {
    if pattern == [] then (if text == [] then name else None)
    else match pattern[0]
      case Fixed(fixed) => if fixed <= text then Match(pattern[1..], text[|fixed|..], name) else None
      case Run(stops, least) =>
        var n := RunLength(text, stops);
        if n < least then None else Match(pattern[1..], text[n..], name)
      case Named(stops) =>
        var n := RunLength(text, stops);
        if n < 1 then None else Match(pattern[1..], text[n..], Some(text[..n]))
  }

  function FirstMatch(patterns: seq<Pattern>, identifier: string): string
    decreases |patterns|
  {
    if patterns == [] then identifier
    else match Match(patterns[0], identifier, None)
      case Some(name) => name
      case None => FirstMatch(patterns[1..], identifier)
  }

  function CanonicalName(resourceType: string, identifier: string): string {
    FirstMatch(Patterns(resourceType), identifier)
  }

  function ResourceKey(resourceType: string, identifier: string): string {
    resourceType + "|" + CanonicalName(resourceType, identifier)
  }
}

// Which identifiers name which resource.
module ResourceNameForms {
  import opened Wrappers
  import opened ResourceNames

  predicate IsFree(text: string, stops: set<char>) {
    forall c | c in text :: c !in stops
  }

  ghost predicate EndsBefore(rest: string, stops: set<char>) {
    rest == "" || rest[0] in stops
  }

  // ---------- one piece ----------

  lemma {:induction false} RunIs(run: string, rest: string, stops: set<char>)
    requires IsFree(run, stops) && EndsBefore(rest, stops)
    ensures RunLength(run + rest, stops) == |run| && (run + rest)[|run|..] == rest && (run + rest)[..|run|] == run
  {
    if run != "" {
      assert run[0] in run && (run + rest)[1..] == run[1..] + rest;
      RunIs(run[1..], rest, stops);
    } else {
      assert run + rest == rest;
    }
  }

  lemma {:induction false} RunTaken(text: string, stops: set<char>)
    ensures var n := RunLength(text, stops);
      IsFree(text[..n], stops) && EndsBefore(text[n..], stops) && text == text[..n] + text[n..]
  {
    if text != "" && text[0] !in stops {
      RunTaken(text[1..], stops);
      var n := RunLength(text, stops);
      assert text[..n] == [text[0]] + text[1..][..n - 1] && text[n..] == text[1..][n - 1..];
    }
  }

  lemma FixedMatches(fixed: string, pattern: Pattern, rest: string, name: Option<string>)
    ensures Match([Fixed(fixed)] + pattern, fixed + rest, name) == Match(pattern, rest, name)
  {
    assert ([Fixed(fixed)] + pattern)[1..] == pattern && (fixed + rest)[|fixed|..] == rest;
  }

  lemma FixedMatched(fixed: string, pattern: Pattern, text: string, name: Option<string>) returns (rest: string)
    requires Match([Fixed(fixed)] + pattern, text, name).Some?
    ensures text == fixed + rest && Match([Fixed(fixed)] + pattern, text, name) == Match(pattern, rest, name)
  {
    assert ([Fixed(fixed)] + pattern)[1..] == pattern;
    rest := text[|fixed|..];
  }

  lemma RunMatches(stops: set<char>, least: nat, pattern: Pattern, run: string, rest: string, name: Option<string>)
    requires IsFree(run, stops) && |run| >= least && EndsBefore(rest, stops)
    ensures Match([Run(stops, least)] + pattern, run + rest, name) == Match(pattern, rest, name)
  {
    assert ([Run(stops, least)] + pattern)[1..] == pattern;
    RunIs(run, rest, stops);
  }

  lemma RunMatched(stops: set<char>, least: nat, pattern: Pattern, text: string, name: Option<string>)
    returns (run: string, rest: string)
    requires Match([Run(stops, least)] + pattern, text, name).Some?
    ensures text == run + rest && IsFree(run, stops) && |run| >= least && EndsBefore(rest, stops)
    ensures Match([Run(stops, least)] + pattern, text, name) == Match(pattern, rest, name)
  {
    assert ([Run(stops, least)] + pattern)[1..] == pattern;
    RunTaken(text, stops);
    var n := RunLength(text, stops);
    run, rest := text[..n], text[n..];
  }

  lemma NameMatches(stops: set<char>, pattern: Pattern, run: string, rest: string)
    requires IsFree(run, stops) && run != "" && EndsBefore(rest, stops)
    ensures Match([Named(stops)] + pattern, run + rest, None) == Match(pattern, rest, Some(run))
  {
    assert ([Named(stops)] + pattern)[1..] == pattern;
    RunIs(run, rest, stops);
  }

  lemma NameMatched(stops: set<char>, pattern: Pattern, text: string) returns (run: string, rest: string)
    requires Match([Named(stops)] + pattern, text, None).Some?
    ensures text == run + rest && IsFree(run, stops) && run != "" && EndsBefore(rest, stops)
    ensures Match([Named(stops)] + pattern, text, None) == Match(pattern, rest, Some(run))
  {
    assert ([Named(stops)] + pattern)[1..] == pattern;
    RunTaken(text, stops);
    var n := RunLength(text, stops);
    run, rest := text[..n], text[n..];
  }

  // ---------- whole identifiers ----------

  function ArnText(partition: string, service: string, region: string, account: string, item: string): string {
    "arn:" + partition + ":" + service + ":" + region + ":" + account + ":" + item
  }

  // An ARN of the service whose item is the prefix, a name and the rest.
  ghost predicate IsArn(text: string, service: string, prefix: string, name: string, rest: string) {
    exists partition, region, account ::
      && text == ArnText(partition, service, region, account, prefix + name + rest)
      && partition != "" && ':' !in partition && ':' !in region && ':' !in account && name != ""
  }

  lemma ArnUnfolds(service: string, prefix: string, stops: set<char>, tail: Pattern)
    ensures ArnOf(service, prefix, stops) + tail ==
            [Fixed("arn:")] + ([Run({':'}, 1)] + ([Fixed(":" + service + ":")] + ([Run({':'}, 0)] + ([Fixed(":")] +
            ([Run({':'}, 0)] + ([Fixed(":" + prefix)] + ([Named(stops)] + tail)))))))
  {
  }

  lemma ArnTextUnfolds(partition: string, service: string, region: string, account: string, item: string)
    ensures ArnText(partition, service, region, account, item)
         == "arn:" + (partition + ((":" + service + ":") + (region + (":" + (account + (":" + item))))))
  {
  }

  lemma ItemUnfolds(prefix: string, name: string, rest: string)
    ensures ":" + (prefix + name + rest) == (":" + prefix) + (name + rest)
  {
  }

  lemma ArnMatches(service: string, prefix: string, stops: set<char>, tail: Pattern, partition: string, region: string,
                   account: string, name: string, rest: string)
    requires partition != "" && ':' !in partition && ':' !in region && ':' !in account && name != ""
    requires IsFree(name, stops) && EndsBefore(rest, stops)
    ensures Match(ArnOf(service, prefix, stops) + tail,
                  ArnText(partition, service, region, account, prefix + name + rest), None)
         == Match(tail, rest, Some(name))
  {
    hide Match, ArnOf, ArnText;
    ArnUnfolds(service, prefix, stops, tail);
    ArnTextUnfolds(partition, service, region, account, prefix + name + rest);
    ItemUnfolds(prefix, name, rest);
    var p7 := [Named(stops)] + tail;
    var p6 := [Fixed(":" + prefix)] + p7;
    var p5 := [Run({':'}, 0)] + p6;
    var p4 := [Fixed(":")] + p5;
    var p3 := [Run({':'}, 0)] + p4;
    var p2 := [Fixed(":" + service + ":")] + p3;
    var t7 := name + rest;
    var t6 := (":" + prefix) + t7;
    var t5 := account + t6;
    var t4 := ":" + t5;
    var t3 := region + t4;
    var t2 := (":" + service + ":") + t3;
    FixedMatches("arn:", [Run({':'}, 1)] + p2, partition + t2, None);
    RunMatches({':'}, 1, p2, partition, t2, None);
    FixedMatches(":" + service + ":", p3, t3, None);
    RunMatches({':'}, 0, p4, region, t4, None);
    FixedMatches(":", p5, t5, None);
    RunMatches({':'}, 0, p6, account, t6, None);
    FixedMatches(":" + prefix, p7, t7, None);
    NameMatches(stops, tail, name, rest);
  }

  lemma ArnMatched(service: string, prefix: string, stops: set<char>, tail: Pattern, text: string)
    returns (name: string, rest: string)
    requires Match(ArnOf(service, prefix, stops) + tail, text, None).Some?
    ensures IsArn(text, service, prefix, name, rest) && IsFree(name, stops) && EndsBefore(rest, stops)
    ensures Match(ArnOf(service, prefix, stops) + tail, text, None) == Match(tail, rest, Some(name))
  {
    hide Match, ArnOf, ArnText, EndsBefore;
    ArnUnfolds(service, prefix, stops, tail);
    var p7 := [Named(stops)] + tail;
    var p6 := [Fixed(":" + prefix)] + p7;
    var p5 := [Run({':'}, 0)] + p6;
    var p4 := [Fixed(":")] + p5;
    var p3 := [Run({':'}, 0)] + p4;
    var p2 := [Fixed(":" + service + ":")] + p3;
    var t1 := FixedMatched("arn:", [Run({':'}, 1)] + p2, text, None);
    var partition, t2 := RunMatched({':'}, 1, p2, t1, None);
    var t3 := FixedMatched(":" + service + ":", p3, t2, None);
    var region, t4 := RunMatched({':'}, 0, p4, t3, None);
    var t5 := FixedMatched(":", p5, t4, None);
    var account, t6 := RunMatched({':'}, 0, p6, t5, None);
    var t7 := FixedMatched(":" + prefix, p7, t6, None);
    name, rest := NameMatched(stops, tail, t7);
    ItemUnfolds(prefix, name, rest);
    ArnTextUnfolds(partition, service, region, account, prefix + name + rest);
  }

  lemma PlainArn(service: string, prefix: string, stops: set<char>, text: string, name: string)
    ensures Match(ArnOf(service, prefix, stops), text, None) == Some(name) <==>
              IsArn(text, service, prefix, name, "") && IsFree(name, stops)
  {
    hide ArnOf, ArnText;
    var pattern := ArnOf(service, prefix, stops);
    assert pattern + [] == pattern;
    if Match(pattern, text, None).Some? {
      var found, rest := ArnMatched(service, prefix, stops, [], text);
    }
    if IsArn(text, service, prefix, name, "") && IsFree(name, stops) {
      var partition, region, account :|
        && text == ArnText(partition, service, region, account, prefix + name + "")
        && partition != "" && ':' !in partition && ':' !in region && ':' !in account && name != "";
      ArnMatches(service, prefix, stops, [], partition, region, account, name, "");
    }
  }

  lemma LabelMatches(lead: string, last: string, name: string)
    requires last != "" && '/' !in last
    ensures Match([Fixed(lead), Run({'/'}, 1)], lead + last, Some(name)) == Some(name)
  {
    hide Match;
    FixedMatches(lead, [Run({'/'}, 1)], last, Some(name));
    assert [Fixed(lead)] + [Run({'/'}, 1)] == [Fixed(lead), Run({'/'}, 1)];
    RunMatches({'/'}, 1, [], last, "", Some(name));
    assert last + "" == last && [Run({'/'}, 1)] + [] == [Run({'/'}, 1)];
    NothingLeft("", Some(name));
  }

  lemma NothingLeft(text: string, name: Option<string>)
    ensures Match([], text, name) == if text == "" then name else None
  {
  }

  lemma LabelMatched(lead: string, rest: string, name: string) returns (last: string)
    requires Match([Fixed(lead), Run({'/'}, 1)], rest, Some(name)).Some?
    ensures rest == lead + last && last != "" && '/' !in last
    ensures Match([Fixed(lead), Run({'/'}, 1)], rest, Some(name)) == Some(name)
  {
    hide Match;
    assert [Fixed(lead)] + [Run({'/'}, 1)] == [Fixed(lead), Run({'/'}, 1)];
    assert [Run({'/'}, 1)] + [] == [Run({'/'}, 1)];
    last := FixedMatched(lead, [Run({'/'}, 1)], rest, Some(name));
    var run, left := RunMatched({'/'}, 1, [], last, Some(name));
    NothingLeft(left, Some(name));
    assert run + "" == run;
  }

  // An ARN whose name is followed by the lead and one more part.
  ghost predicate IsLabelledArn(text: string, service: string, prefix: string, name: string, lead: string) {
    exists last :: IsArn(text, service, prefix, name, lead + last) && last != "" && '/' !in last
  }

  lemma LabelledArn(service: string, prefix: string, lead: string, text: string, name: string)
    requires lead != "" && lead[0] == '/'
    ensures Match(ArnOf(service, prefix, {'/'}) + [Fixed(lead), Run({'/'}, 1)], text, None) == Some(name) <==>
              IsLabelledArn(text, service, prefix, name, lead) && '/' !in name
  {
    hide ArnOf, ArnText, Match;
    var tail := [Fixed(lead), Run({'/'}, 1)];
    if Match(ArnOf(service, prefix, {'/'}) + tail, text, None).Some? {
      var found, rest := ArnMatched(service, prefix, {'/'}, tail, text);
      var last := LabelMatched(lead, rest, found);
    }
    if IsLabelledArn(text, service, prefix, name, lead) && '/' !in name {
      var last :| IsArn(text, service, prefix, name, lead + last) && last != "" && '/' !in last;
      var partition, region, account :|
        && text == ArnText(partition, service, region, account, prefix + name + (lead + last))
        && partition != "" && ':' !in partition && ':' !in region && ':' !in account && name != "";
      ArnMatches(service, prefix, {'/'}, tail, partition, region, account, name, lead + last);
      LabelMatches(lead, last, name);
    }
  }

  lemma StarMatches(rest: string, name: string)
    ensures Match([Fixed(":*")], rest, Some(name)) == if rest == ":*" then Some(name) else None
  {
    if ":*" <= rest {
      assert rest == ":*" + rest[2..];
    }
  }

  // A log group's ARN matches with and without the star, but not both ways.
  lemma StarredArn(service: string, prefix: string, text: string, name: string)
    ensures Match(ArnOf(service, prefix, {':'}) + [Fixed(":*")], text, None) == Some(name) <==>
              IsArn(text, service, prefix, name, ":*") && ':' !in name
    ensures IsArn(text, service, prefix, name, ":*") && ':' !in name ==>
              Match(ArnOf(service, prefix, {':'}), text, None).None?
  {
    hide ArnOf, ArnText, Match;
    var pattern, tail := ArnOf(service, prefix, {':'}), [Fixed(":*")];
    assert pattern + [] == pattern;
    if Match(pattern + tail, text, None).Some? {
      var found, rest := ArnMatched(service, prefix, {':'}, tail, text);
      StarMatches(rest, found);
    }
    if IsArn(text, service, prefix, name, ":*") && ':' !in name {
      var partition, region, account :|
        && text == ArnText(partition, service, region, account, prefix + name + ":*")
        && partition != "" && ':' !in partition && ':' !in region && ':' !in account && name != "";
      ArnMatches(service, prefix, {':'}, tail, partition, region, account, name, ":*");
      StarMatches(":*", name);
      ArnMatches(service, prefix, {':'}, [], partition, region, account, name, ":*");
      NothingLeft(":*", Some(name));
    }
  }

  ghost predicate IsQueueUrl(text: string, name: string) {
    exists host, account ::
      && text == "https://" + host + "/" + account + "/" + name
      && host != "" && account != "" && name != "" && '/' !in host && '/' !in account && '/' !in name
  }

  lemma UrlUnfolds(host: string, account: string, name: string)
    ensures "https://" + host + "/" + account + "/" + name
        == "https://" + (host + ("/" + (account + ("/" + (name + "")))))
    ensures QUEUE_URL == [Fixed("https://")] + ([Run({'/'}, 1)] + ([Fixed("/")] + ([Run({'/'}, 1)] +
                         ([Fixed("/")] + ([Named({'/'})] + [])))))
  {
  }

  lemma QueueUrlExactly(text: string, name: string)
    ensures Match(QUEUE_URL, text, None) == Some(name) <==> IsQueueUrl(text, name)
  {
    hide Match;
    var p5 := [Named({'/'})] + [];
    var p4 := [Fixed("/")] + p5;
    var p3 := [Run({'/'}, 1)] + p4;
    var p2 := [Fixed("/")] + p3;
    UrlUnfolds("", "", "");
    if Match(QUEUE_URL, text, None).Some? {
      var t1 := FixedMatched("https://", [Run({'/'}, 1)] + p2, text, None);
      var host, t2 := RunMatched({'/'}, 1, p2, t1, None);
      var t3 := FixedMatched("/", p3, t2, None);
      var account, t4 := RunMatched({'/'}, 1, p4, t3, None);
      var t5 := FixedMatched("/", p5, t4, None);
      var found, rest := NameMatched({'/'}, [], t5);
      NothingLeft(rest, Some(found));
      UrlUnfolds(host, account, found);
      assert IsQueueUrl(text, found);
    }
    if IsQueueUrl(text, name) {
      var host, account :| text == "https://" + host + "/" + account + "/" + name
        && host != "" && account != "" && name != "" && '/' !in host && '/' !in account && '/' !in name;
      UrlUnfolds(host, account, name);
      var t5 := name + "";
      var t4 := "/" + t5;
      var t3 := account + t4;
      var t2 := "/" + t3;
      FixedMatches("https://", [Run({'/'}, 1)] + p2, host + t2, None);
      RunMatches({'/'}, 1, p2, host, t2, None);
      FixedMatches("/", p3, t3, None);
      RunMatches({'/'}, 1, p4, account, t4, None);
      FixedMatches("/", p5, t5, None);
      NameMatches({'/'}, [], name, "");
      NothingLeft("", Some(name));
    }
  }

  // ---------- every type ----------

  // The identifiers that carry the resource's name inside, by type.
  ghost predicate CarriesName(resourceType: string, id: string, name: string) {
    match resourceType
    case "AWS::CloudFormation::Stack" => IsLabelledArn(id, "cloudformation", "stack/", name, "/") && '/' !in name
    case "AWS::SQS::Queue" =>
      IsQueueUrl(id, name) || (IsArn(id, "sqs", "", name, "") && ':' !in name && '/' !in name)
    case "AWS::Lambda::Function" => IsArn(id, "lambda", "function:", name, "") && ':' !in name
    case "AWS::Lambda::EventSourceMapping" => IsArn(id, "lambda", "event-source-mapping:", name, "") && ':' !in name
    case "AWS::DynamoDB::Table" => IsArn(id, "dynamodb", "table/", name, "") && '/' !in name
    case "AWS::DynamoDB::TableStream" => IsLabelledArn(id, "dynamodb", "table/", name, "/stream/") && '/' !in name
    case "AWS::Logs::LogGroup" =>
      ':' !in name && (IsArn(id, "logs", "log-group:", name, "") || IsArn(id, "logs", "log-group:", name, ":*"))
    case _ => false
  }

  lemma OnePattern(pattern: Pattern, id: string)
    ensures FirstMatch([pattern], id) == match Match(pattern, id, None) case Some(name) => name case None => id
  {
    hide Match;
    assert [pattern][1..] == [] && FirstMatch([], id) == id;
  }

  lemma TwoPatterns(first: Pattern, second: Pattern, id: string)
    ensures FirstMatch([first, second], id) ==
            match Match(first, id, None) case Some(name) => name case None => FirstMatch([second], id)
  {
    hide Match;
    assert [first, second][1..] == [second];
  }

  lemma ArnIsNoUrl(id: string, service: string, prefix: string, name: string, rest: string)
    requires IsArn(id, service, prefix, name, rest)
    ensures Match(QUEUE_URL, id, None).None?
  {
    assert id[0] == 'a';
    assert !("https://" <= id);
  }

  // The canonical name is the name the identifier carries, whatever the surface that shows it, and the
  // identifier itself where it carries none.
  lemma CanonicalExactly(resourceType: string, id: string, name: string)
    ensures CarriesName(resourceType, id, name) ==> CanonicalName(resourceType, id) == name
    ensures CanonicalName(resourceType, id) != id ==> CarriesName(resourceType, id, CanonicalName(resourceType, id))
  {
    hide Match, FirstMatch, ArnOf, IsArn, IsQueueUrl, IsLabelledArn;
    var canonical := CanonicalName(resourceType, id);
    match resourceType {
      case "AWS::CloudFormation::Stack" =>
        OnePattern(STACK_ARN, id);
        LabelledArn("cloudformation", "stack/", "/", id, name);
        LabelledArn("cloudformation", "stack/", "/", id, canonical);
      case "AWS::SQS::Queue" =>
        QueueNames(id, name);
        QueueNames(id, canonical);
      case "AWS::Lambda::Function" =>
        OnePattern(FUNCTION_ARN, id);
        PlainArn("lambda", "function:", {':'}, id, name);
        PlainArn("lambda", "function:", {':'}, id, canonical);
      case "AWS::Lambda::EventSourceMapping" =>
        OnePattern(EVENT_SOURCE_MAPPING_ARN, id);
        PlainArn("lambda", "event-source-mapping:", {':'}, id, name);
        PlainArn("lambda", "event-source-mapping:", {':'}, id, canonical);
      case "AWS::DynamoDB::Table" =>
        OnePattern(TABLE_ARN, id);
        PlainArn("dynamodb", "table/", {'/'}, id, name);
        PlainArn("dynamodb", "table/", {'/'}, id, canonical);
      case "AWS::DynamoDB::TableStream" =>
        OnePattern(TABLE_STREAM_ARN, id);
        LabelledArn("dynamodb", "table/", "/stream/", id, name);
        LabelledArn("dynamodb", "table/", "/stream/", id, canonical);
      case "AWS::Logs::LogGroup" =>
        LogGroupNames(id, name);
        LogGroupNames(id, canonical);
      case _ =>
        NoPattern(id);
    }
  }

  // Two resources have one key exactly when they have one type and one name.
  lemma KeysExactly(aType: string, a: string, bType: string, b: string)
    requires '|' !in aType && '|' !in bType
    ensures ResourceKey(aType, a) == ResourceKey(bType, b) <==>
              aType == bType && CanonicalName(aType, a) == CanonicalName(bType, b)
  {
    hide CanonicalName;
    var x, y := ResourceKey(aType, a), ResourceKey(bType, b);
    if x == y {
      assert x[|aType|] == '|' && y[|bType|] == '|';
      assert x[..|aType|] == aType && y[..|bType|] == bType;
      assert x[|aType| + 1..] == CanonicalName(aType, a) && y[|bType| + 1..] == CanonicalName(bType, b);
    }
  }

  lemma NoPattern(id: string)
    ensures FirstMatch([], id) == id
  {
  }

  lemma QueueNames(id: string, name: string)
    ensures var canonical := FirstMatch([QUEUE_URL, QUEUE_ARN], id);
      var carries := IsQueueUrl(id, name) || (IsArn(id, "sqs", "", name, "") && ':' !in name && '/' !in name);
      (carries ==> canonical == name) && (canonical == name != id ==> carries)
  {
    hide Match, FirstMatch, ArnOf, IsArn, IsQueueUrl;
    TwoPatterns(QUEUE_URL, QUEUE_ARN, id);
    OnePattern(QUEUE_ARN, id);
    QueueUrlExactly(id, name);
    PlainArn("sqs", "", {':', '/'}, id, name);
    if IsArn(id, "sqs", "", name, "") {
      ArnIsNoUrl(id, "sqs", "", name, "");
    }
  }

  lemma LogGroupNames(id: string, name: string)
    ensures var canonical := FirstMatch([LOG_GROUP_ARN, LOG_GROUP_ARN + [Fixed(":*")]], id);
      var carries := ':' !in name &&
          (IsArn(id, "logs", "log-group:", name, "") || IsArn(id, "logs", "log-group:", name, ":*"));
      (carries ==> canonical == name) && (canonical == name != id ==> carries)
  {
    hide Match, FirstMatch, ArnOf, IsArn;
    TwoPatterns(LOG_GROUP_ARN, LOG_GROUP_ARN + [Fixed(":*")], id);
    OnePattern(LOG_GROUP_ARN + [Fixed(":*")], id);
    PlainArn("logs", "log-group:", {':'}, id, name);
    StarredArn("logs", "log-group:", id, name);
  }
}

module Ownership {
  import opened Wrappers
  import opened ResourceNames

  const RUN_ID_TAG := "suc:run_id"
  const STUDY_ID_TAG := "suc:study_id"

  datatype Basis = RecordedStack | ManifestAndTags | RunTagsAfterFreeze | AmbiguousOwnership | BaselineExclusion

  datatype Tag = Tag(key: string, value: string)

  datatype TagObservation = Tagged(tags: seq<Tag>) | Untaggable | TagsUnknown(code: string)

  datatype Surface =
    | TagIndex | Stack | StackResources | Functions | EventSourceMappings
    | DurableExecutions | Queues | Tables | LogGroups | Roles

  datatype Resource = Resource(
    resourceType: string,
    identifier: string,
    surface: Surface,
    tags: TagObservation,
    createdAt: Option<int>,
    managedBy: Option<string>)

  datatype Provisioning = ProvisioningSucceeded | ProvisioningPartial | ProvisioningFailed

  datatype Context = Context(
    executionId: string,
    studyId: string,
    runTags: seq<Tag>,
    stackId: Option<string>,
    provisioning: Provisioning,
    members: set<string>,
    frozenAt: int,
    expectedTypes: set<string>,
    namePrefixes: seq<string>,
    names: seq<string>,
    baselineNames: seq<string>,
    baselinePrefixes: seq<string>)

  datatype Decision = Owned(basis: Basis) | Ambiguous(reasons: seq<string>) | ExcludedBaseline

  function Key(resource: Resource): string {
    ResourceKey(resource.resourceType, resource.identifier)
  }

  function Name(resource: Resource): string {
    CanonicalName(resource.resourceType, resource.identifier)
  }

  predicate StartsWithAny(name: string, prefixes: seq<string>) {
    exists i | 0 <= i < |prefixes| :: prefixes[i] <= name
  }

  predicate IsBaseline(resource: Resource, context: Context) {
    Name(resource) in context.baselineNames || StartsWithAny(Name(resource), context.baselinePrefixes)
  }

  predicate IsRecordedStack(resourceType: string, identifier: string, stackId: Option<string>) {
    resourceType == STACK_RESOURCE_TYPE && Some(identifier) == stackId
  }

  predicate IsManaged(resource: Resource, context: Context, member: bool) {
    context.stackId.Some? && (resource.managedBy == context.stackId || (member && resource.tags.Untaggable?))
  }

  function TagsOf(tags: seq<Tag>, key: string): seq<Tag> {
    if tags == [] then []
    else if tags[0].key == key then [tags[0]] + TagsOf(tags[1..], key)
    else TagsOf(tags[1..], key)
  }

  // The value of a tag the resource carries exactly once.
  function SingleTagValue(resource: Resource, key: string): Option<string> {
    if !resource.tags.Tagged? then None
    else
      var matching := TagsOf(resource.tags.tags, key);
      if |matching| == 1 then Some(matching[0].value) else None
  }

  predicate CarriesRunSpecificTags(resource: Resource, context: Context) {
    && SingleTagValue(resource, RUN_ID_TAG) == Some(context.executionId)
    && SingleTagValue(resource, STUDY_ID_TAG) == Some(context.studyId)
  }

  predicate CarriesEveryRunTag(resource: Resource, context: Context) {
    forall i | 0 <= i < |context.runTags| ::
      SingleTagValue(resource, context.runTags[i].key) == Some(context.runTags[i].value)
  }

  predicate HasExpectedTypeOrName(resource: Resource, context: Context) {
    || resource.resourceType in context.expectedTypes
    || Name(resource) in context.names
    || StartsWithAny(Name(resource), context.namePrefixes)
  }

  function CreationFailure(resource: Resource, context: Context): seq<string> {
    match resource.createdAt
    case None => ["CREATION_TIME_UNKNOWN"]
    case Some(at) => if at > context.frozenAt then [] else ["CREATED_BEFORE_MANIFEST_FREEZE"]
  }

  function UnrecordedFailures(resource: Resource, context: Context): seq<string> {
    (if context.provisioning.ProvisioningSucceeded? then ["NOT_IN_COMPLETE_MANIFEST"] else []) +
    (if CarriesEveryRunTag(resource, context) then [] else ["RUN_TAGS_NOT_PROVEN"]) +
    (if HasExpectedTypeOrName(resource, context) then [] else ["UNEXPECTED_TYPE_AND_NAME"]) +
    CreationFailure(resource, context)
  }

  function DecideMember(resource: Resource, context: Context): Decision {
    if CarriesRunSpecificTags(resource, context) then Owned(ManifestAndTags)
    else if IsManaged(resource, context, true) then Owned(RecordedStack)
    else Ambiguous(["RUN_TAGS_NOT_PROVEN"])
  }

  function ProveOwnership(resource: Resource, context: Context): Decision {
    if IsBaseline(resource, context) then ExcludedBaseline
    else if IsRecordedStack(resource.resourceType, resource.identifier, context.stackId) then Owned(RecordedStack)
    else if Key(resource) in context.members then DecideMember(resource, context)
    else
      var failures := UnrecordedFailures(resource, context);
      if failures == [] then Owned(RunTagsAfterFreeze)
      else if IsManaged(resource, context, false) then Owned(RecordedStack)
      else Ambiguous(failures)
  }

  predicate IsDirectlyDeletable(basis: Basis) {
    basis == ManifestAndTags || basis == RunTagsAfterFreeze
  }

  // ---------- what a decision proves ----------

  predicate ProvesDirectDeletion(decision: Decision) {
    decision.Owned? && IsDirectlyDeletable(decision.basis)
  }

  // The manifest lists the resource and it carries this run's own tags.
  predicate ListedWithRunTags(resource: Resource, context: Context) {
    Key(resource) in context.members && CarriesRunSpecificTags(resource, context)
  }

  // An incomplete manifest misses it, but every run tag, its type or name and its age speak for it.
  predicate UnlistedWithFullEvidence(resource: Resource, context: Context) {
    && Key(resource) !in context.members
    && !context.provisioning.ProvisioningSucceeded?
    && CarriesEveryRunTag(resource, context)
    && HasExpectedTypeOrName(resource, context)
    && resource.createdAt.Some? && resource.createdAt.value > context.frozenAt
  }

  // Direct deletion is proved exactly by one of the two kinds of evidence, on nothing that is
  // baseline or the recorded stack; a resource whose tags were not read never qualifies by the
  // manifest, and nothing ever does by a tag carried twice.
  lemma DirectDeletionExactly(resource: Resource, context: Context)
    ensures ProvesDirectDeletion(ProveOwnership(resource, context)) <==>
              && !IsBaseline(resource, context)
              && !IsRecordedStack(resource.resourceType, resource.identifier, context.stackId)
              && (ListedWithRunTags(resource, context) || UnlistedWithFullEvidence(resource, context))
    ensures ListedWithRunTags(resource, context) ==> resource.tags.Tagged?
    ensures ProveOwnership(resource, context).Ambiguous? ==> ProveOwnership(resource, context).reasons != []
  {
    hide CarriesEveryRunTag, HasExpectedTypeOrName, TagsOf, IsBaseline, ResourceKey;
    var provisioned := if context.provisioning.ProvisioningSucceeded? then ["NOT_IN_COMPLETE_MANIFEST"] else [];
    var tagged := if CarriesEveryRunTag(resource, context) then [] else ["RUN_TAGS_NOT_PROVEN"];
    var expected := if HasExpectedTypeOrName(resource, context) then [] else ["UNEXPECTED_TYPE_AND_NAME"];
    assert |UnrecordedFailures(resource, context)|
        == |provisioned| + |tagged| + |expected| + |CreationFailure(resource, context)|;
  }

  // A tag counts exactly when the resource's tags were read and carry its key once.
  lemma SingleTagExactly(resource: Resource, key: string, value: string)
    ensures SingleTagValue(resource, key) == Some(value) <==>
              resource.tags.Tagged? && CarriesOnce(resource.tags.tags, Tag(key, value))
  {
    hide TagsOf;
    if resource.tags.Tagged? {
      TagsOfExactly(resource.tags.tags, key);
    }
  }

  ghost predicate CarriesOnce(tags: seq<Tag>, tag: Tag) {
    exists i | 0 <= i < |tags| :: tags[i] == tag && OnlyAt(tags, tag.key, i)
  }

  ghost predicate OnlyAt(tags: seq<Tag>, key: string, i: nat) {
    forall j | 0 <= j < |tags| && j != i :: tags[j].key != key
  }

  lemma {:induction false} TagsOfExactly(tags: seq<Tag>, key: string)
    ensures |TagsOf(tags, key)| == 1 <==> exists i | 0 <= i < |tags| :: tags[i].key == key && OnlyAt(tags, key, i)
    ensures forall i | 0 <= i < |tags| && tags[i].key == key && OnlyAt(tags, key, i) :: TagsOf(tags, key) == [tags[i]]
    ensures TagsOf(tags, key) == [] <==> forall i | 0 <= i < |tags| :: tags[i].key != key
  {
    if tags != [] {
      var rest := tags[1..];
      TagsOfExactly(rest, key);
      assert forall i | 0 <= i < |rest| :: rest[i] == tags[i + 1];
      if tags[0].key == key {
        assert TagsOf(tags, key) == [tags[0]] + TagsOf(rest, key);
        assert OnlyAt(tags, key, 0) <==> TagsOf(rest, key) == [];
      } else {
        assert forall i | 0 <= i < |rest| :: OnlyAt(rest, key, i) <==> OnlyAt(tags, key, i + 1);
      }
    }
  }

  // The resource's tags were read and carry the tag once.
  ghost predicate ShowsTag(resource: Resource, tag: Tag) {
    resource.tags.Tagged? && CarriesOnce(resource.tags.tags, tag)
  }

  ghost predicate HasPrefixIn(name: string, prefixes: seq<string>) {
    exists prefix | prefix in prefixes :: prefix <= name
  }

  // The pieces of evidence, each by the resource's own name, type and tags.
  lemma EvidenceExactly(resource: Resource, context: Context)
    ensures IsBaseline(resource, context) <==>
              Name(resource) in context.baselineNames || HasPrefixIn(Name(resource), context.baselinePrefixes)
    ensures CarriesRunSpecificTags(resource, context) <==>
              && ShowsTag(resource, Tag("suc:run_id", context.executionId))
              && ShowsTag(resource, Tag("suc:study_id", context.studyId))
    ensures CarriesEveryRunTag(resource, context) <==> forall tag | tag in context.runTags :: ShowsTag(resource, tag)
    ensures HasExpectedTypeOrName(resource, context) <==>
              || resource.resourceType in context.expectedTypes || Name(resource) in context.names
              || HasPrefixIn(Name(resource), context.namePrefixes)
  {
    hide SingleTagValue, CanonicalName, CarriesOnce;
    PrefixExactly(Name(resource), context.baselinePrefixes);
    PrefixExactly(Name(resource), context.namePrefixes);
    SingleTagExactly(resource, "suc:run_id", context.executionId);
    SingleTagExactly(resource, "suc:study_id", context.studyId);
    forall i | 0 <= i < |context.runTags|
      ensures SingleTagValue(resource, context.runTags[i].key) == Some(context.runTags[i].value) <==>
                ShowsTag(resource, context.runTags[i])
    {
      SingleTagExactly(resource, context.runTags[i].key, context.runTags[i].value);
    }
    assert forall i | 0 <= i < |context.runTags| :: context.runTags[i] in context.runTags;
  }

  lemma PrefixExactly(name: string, prefixes: seq<string>)
    ensures StartsWithAny(name, prefixes) <==> HasPrefixIn(name, prefixes)
  {
    if StartsWithAny(name, prefixes) {
      var i :| 0 <= i < |prefixes| && prefixes[i] <= name;
      assert prefixes[i] in prefixes;
    }
  }

  // Which decision each resource gets: baseline first, then the recorded stack itself, then direct
  // deletion by its two kinds of evidence, then the stack boundary, and ambiguity otherwise, with a
  // reason for each piece of evidence that is missing.
  lemma DecisionExactly(resource: Resource, context: Context)
    ensures ProveOwnership(resource, context) ==
      if IsBaseline(resource, context) then ExcludedBaseline
      else if IsRecordedStack(resource.resourceType, resource.identifier, context.stackId) then Owned(RecordedStack)
      else if ListedWithRunTags(resource, context) then Owned(ManifestAndTags)
      else if UnlistedWithFullEvidence(resource, context) then Owned(RunTagsAfterFreeze)
      else if StackManages(resource, context) then Owned(RecordedStack)
      else Ambiguous(MissingEvidence(resource, context))
  {
    hide CarriesEveryRunTag, HasExpectedTypeOrName, TagsOf, IsBaseline, ResourceKey, CarriesRunSpecificTags;
    var parts := UnrecordedFailures(resource, context);
    assert parts == [] <==>
      !context.provisioning.ProvisioningSucceeded? && CarriesEveryRunTag(resource, context) &&
      HasExpectedTypeOrName(resource, context) && CreationFailure(resource, context) == [];
  }

  // The recorded stack lists the resource, or the manifest does and its type supports no tags.
  predicate StackManages(resource: Resource, context: Context) {
    context.stackId.Some? &&
    (resource.managedBy == context.stackId || (Key(resource) in context.members && resource.tags == Untaggable))
  }

  function MissingEvidence(resource: Resource, context: Context): seq<string> {
    if Key(resource) in context.members then ["RUN_TAGS_NOT_PROVEN"]
    else
      (if context.provisioning == ProvisioningSucceeded then ["NOT_IN_COMPLETE_MANIFEST"] else []) +
      (if !CarriesEveryRunTag(resource, context) then ["RUN_TAGS_NOT_PROVEN"] else []) +
      (if !HasExpectedTypeOrName(resource, context) then ["UNEXPECTED_TYPE_AND_NAME"] else []) +
      (match resource.createdAt
       case None => ["CREATION_TIME_UNKNOWN"]
       case Some(at) => if at <= context.frozenAt then ["CREATED_BEFORE_MANIFEST_FREEZE"] else [])
  }
}

module OwnershipJudgement {
  import opened Wrappers
  import opened OrderedMaps
  import opened Ownership

  datatype Judged = Judged(resource: Resource, decision: Decision)

  function EvidenceRank(decision: Decision): nat {
    match decision
    case ExcludedBaseline => 0
    case Owned(basis) => if IsDirectlyDeletable(basis) then 1 else 2
    case Ambiguous(_) => 3
  }

  function Sight(resource: Resource, context: Context): Judged {
    Judged(resource, ProveOwnership(resource, context))
  }

  function Rank(resource: Resource, context: Context): nat {
    EvidenceRank(ProveOwnership(resource, context))
  }

  function Keep(judged: Entries<string, Judged>, candidate: Judged): Entries<string, Judged> {
    var key := Key(candidate.resource);
    var kept := Get(judged, key);
    if kept.None? || EvidenceRank(candidate.decision) < EvidenceRank(kept.value.decision)
    then Put(judged, key, candidate) else judged
  }

  ghost function JudgeUpTo(resources: seq<Resource>, context: Context, n: nat): Entries<string, Judged>
    requires n <= |resources|
  {
    if n == 0 then [] else Keep(JudgeUpTo(resources, context, n - 1), Sight(resources[n - 1], context))
  }

  method JudgeOwnership(resources: seq<Resource>, context: Context) returns (judged: Entries<string, Judged>)
    ensures judged == JudgeUpTo(resources, context, |resources|)
  {
    judged := [];
    for n := 0 to |resources|
      invariant judged == JudgeUpTo(resources, context, n)
    {
      var candidate := Sight(resources[n], context);
      var key := Key(candidate.resource);
      var kept := Get(judged, key);
      if kept.None? || EvidenceRank(candidate.decision) < EvidenceRank(kept.value.decision) {
        judged := Put(judged, key, candidate);
      }
    }
  }

  // ---------- the strongest evidence is kept ----------

  // Sighting `i` is the strongest of its resource, and the first of that strength.
  ghost predicate IsStrongest(resources: seq<Resource>, context: Context, n: nat, i: nat)
    requires n <= |resources|
  {
    && i < n
    && forall k | 0 <= k < n && Key(resources[k]) == Key(resources[i]) ::
         Rank(resources[i], context) <= Rank(resources[k], context) &&
         (k < i ==> Rank(resources[i], context) < Rank(resources[k], context))
  }

  ghost predicate KeepsStrongest(resources: seq<Resource>, context: Context, n: nat, key: string, kept: Option<Judged>)
    requires n <= |resources|
  {
    match kept
    case None => forall k | 0 <= k < n :: Key(resources[k]) != key
    case Some(j) => exists i | 0 <= i < n ::
      Key(resources[i]) == key && j == Sight(resources[i], context) && IsStrongest(resources, context, n, i)
  }

  lemma {:induction false} StrongestIsKept(resources: seq<Resource>, context: Context, n: nat, key: string)
    requires n <= |resources|
    ensures Distinct(JudgeUpTo(resources, context, n))
    ensures KeepsStrongest(resources, context, n, key, Get(JudgeUpTo(resources, context, n), key))
  {
    hide ProveOwnership, Position, Put, Get, Key, Distinct;
    if n == 0 {
      NothingJudged(key);
    } else {
      var m := n - 1;
      var before, x := JudgeUpTo(resources, context, m), resources[m];
      StrongestIsKept(resources, context, m, key);
      StrongestIsKept(resources, context, m, Key(x));
      PutThenGet(before, Key(x), Sight(x, context), key);
      if Key(x) == key {
        KeptAgain(resources, context, m, Get(before, key));
      } else {
        KeptStill(resources, context, m, key, Get(before, key));
      }
    }
  }

  lemma NothingJudged(key: string)
    ensures Distinct<string, Judged>([]) && Get<string, Judged>([], key) == None
  {
  }

  // One more sighting of the resource itself.
  lemma KeptAgain(resources: seq<Resource>, context: Context, m: nat, kept: Option<Judged>)
    requires m < |resources|
    requires KeepsStrongest(resources, context, m, Key(resources[m]), kept)
    ensures KeepsStrongest(resources, context, m + 1, Key(resources[m]),
              if kept.None? || Rank(resources[m], context) < EvidenceRank(kept.value.decision)
              then Some(Sight(resources[m], context)) else kept)
  {
    hide ProveOwnership, Key;
    if kept.Some? {
      var i :| 0 <= i < m && Key(resources[i]) == Key(resources[m])
        && kept.value == Sight(resources[i], context) && IsStrongest(resources, context, m, i);
      if Rank(resources[m], context) < Rank(resources[i], context) {
        assert IsStrongest(resources, context, m + 1, m);
      } else {
        assert IsStrongest(resources, context, m + 1, i);
      }
    } else {
      assert IsStrongest(resources, context, m + 1, m);
    }
  }

  // One more sighting of another resource.
  lemma KeptStill(resources: seq<Resource>, context: Context, m: nat, key: string, kept: Option<Judged>)
    requires m < |resources| && Key(resources[m]) != key
    requires KeepsStrongest(resources, context, m, key, kept)
    ensures KeepsStrongest(resources, context, m + 1, key, kept)
  {
    hide ProveOwnership, Key;
    if kept.Some? {
      var i :| 0 <= i < m && Key(resources[i]) == key
        && kept.value == Sight(resources[i], context) && IsStrongest(resources, context, m, i);
      assert IsStrongest(resources, context, m + 1, i);
    }
  }

  // Every entry is keyed by its own resource.
  lemma EntryIsStrongest(resources: seq<Resource>, context: Context, e: nat) returns (i: nat)
    requires e < |JudgeUpTo(resources, context, |resources|)|
    ensures i < |resources| && IsStrongest(resources, context, |resources|, i)
    ensures JudgeUpTo(resources, context, |resources|)[e] == (Key(resources[i]), Sight(resources[i], context))
  {
    hide ProveOwnership, Position, Put, Get, Key, JudgeUpTo;
    var judged := JudgeUpTo(resources, context, |resources|);
    var key := judged[e].0;
    StrongestIsKept(resources, context, |resources|, key);
    GetAt(judged, e);
    var n := |resources|;
    i :| 0 <= i < n && Key(resources[i]) == key
      && judged[e].1 == Sight(resources[i], context) && IsStrongest(resources, context, n, i);
  }

  lemma JudgedWhenSighted(resources: seq<Resource>, context: Context, key: string)
    ensures Get(JudgeUpTo(resources, context, |resources|), key).Some? <==>
              exists k | 0 <= k < |resources| :: Key(resources[k]) == key
  {
    hide ProveOwnership, Position, Put, Get, Key, JudgeUpTo;
    StrongestIsKept(resources, context, |resources|, key);
  }

  // ---------- in the order of first sighting ----------

  ghost function KeysOf(resources: seq<Resource>): (keys: seq<string>)
    ensures |keys| == |resources| && forall i | 0 <= i < |keys| :: keys[i] == Key(resources[i])
  {
    seq(|resources|, i requires 0 <= i < |resources| => Key(resources[i]))
  }

  lemma {:induction false} KeptInFirstSightingOrder(resources: seq<Resource>, context: Context, n: nat)
    requires n <= |resources|
    ensures InFirstOrder(JudgeUpTo(resources, context, n), KeysOf(resources), n)
  {
    hide ProveOwnership, Key, Get, Put, KeysOf;
    if n == 0 {
      assert InFirstOrder(JudgeUpTo(resources, context, 0), KeysOf(resources), 0);
    } else {
      hide InFirstOrder;
      var before, x := JudgeUpTo(resources, context, n - 1), resources[n - 1];
      KeptInFirstSightingOrder(resources, context, n - 1);
      StrongestIsKept(resources, context, n - 1, Key(x));
      PutInFirstOrder(before, KeysOf(resources), n - 1, Sight(x, context));
    }
  }
}
