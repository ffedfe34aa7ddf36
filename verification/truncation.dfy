/** `Utilities.truncate`: repair a model's free-text reply so that it can be
    handed to a JSON decoder, and fall back to a fixed error record when the
    decoder rejects it. The decoder (`json.loads`) is not modelled: it is the
    parameter `parse`, any function from text to an optional decoded value. */
module Truncation {
  import opened Wrappers
  import opened JsonValue
  import opened PyString

  const ErrorExplanation: string := "Error parsing JSON response."
  const ErrorScore: int := -1

  /** The record returned when decoding fails: exactly the keys
      "explanation" and "score", in that order. */
  const ErrorRecord: Value := Obj([("explanation", Str(ErrorExplanation)), ("score", Int(ErrorScore))])

  /** The left trim: a reply that does not start with `{` but contains one
      is cut down to the suffix that begins at its first `{`. */
  function LeftFix(s: string): (r: string)
    ensures !StartsWith(s, "{") && '{' in s ==>
      |r| < |s| && r == s[|s| - |r|..] && StartsWith(r, "{") && '{' !in s[..|s| - |r|]
    ensures StartsWith(s, "{") || '{' !in s ==> r == s
  {
    if !StartsWith(s, "{") && CountChar(s, '{') > 0 then s[IndexOf(s, '{')..] else s
  }

  /** The right trim: a text that does not end with `}` but contains one
      is cut down to the prefix that ends at its FIRST `}`. */
  function RightFix(s: string): (r: string)
    ensures !EndsWith(s, "}") && '}' in s ==>
      0 < |r| < |s| && r == s[..|r|] && EndsWith(r, "}") && '}' !in r[..|r| - 1]
    ensures EndsWith(s, "}") || '}' !in s ==> r == s
  {
    if !EndsWith(s, "}") && CountChar(s, '}') > 0 then s[..IndexOf(s, '}') + 1] else s
  }

  /** The text that reaches the decoder: the left trim, then the right trim. */
  function ParserInput(response: string): string {
    RightFix(LeftFix(response))
  }

  /** Assigning "explanation" and then "score" into an empty dictionary
      builds the error record. */
  lemma AssignmentsBuildErrorRecord()
    ensures Obj(Assign(Assign([], "explanation", Str(ErrorExplanation)), "score", Int(ErrorScore))) == ErrorRecord
  {
    var d := Assign([], "explanation", Str(ErrorExplanation));
    assert d == [("explanation", Str(ErrorExplanation))];
  }

  /** `"{" + s.split("{", 1)[1]` is the left trim. */
  lemma SplitGivesLeftFix(s: string)
    requires !StartsWith(s, "{") && '{' in s
    ensures |SplitOnce(s, '{')| == 2 && "{" + SplitOnce(s, '{')[1] == LeftFix(s)
  {
    var parts := SplitOnce(s, '{');
    IndexOfUnique(s, '{', |parts[0]|);
    assert s[|parts[0]|..] == ['{'] + parts[1];
  }

  /** `s.split("}", 1)[0] + "}"` is the right trim. */
  lemma SplitGivesRightFix(s: string)
    requires !EndsWith(s, "}") && '}' in s
    ensures |SplitOnce(s, '}')| == 2 && SplitOnce(s, '}')[0] + "}" == RightFix(s)
  {
    var parts := SplitOnce(s, '}');
    IndexOfUnique(s, '}', |parts[0]|);
    assert s[..|parts[0]| + 1] == parts[0] + ['}'];
  }

  /** The whole of `truncate`: both trims, one decoding attempt, and the
      error record in place of a decoding failure. */
  method Truncate(response: string, parse: string -> Option<Value>) returns (result: Value)
    ensures parse(ParserInput(response)).Some? ==> result == parse(ParserInput(response)).value
    ensures parse(ParserInput(response)).None? ==> result == ErrorRecord
  {
    var text := response;
    if !StartsWith(text, "{") && CountChar(text, '{') > 0 {
      SplitGivesLeftFix(text);
      text := "{" + SplitOnce(text, '{')[1];
    }
    if !EndsWith(text, "}") && CountChar(text, '}') > 0 {
      SplitGivesRightFix(text);
      text := SplitOnce(text, '}')[0] + "}";
    }
    var decoded := parse(text);
    match decoded
    case Some(v) =>
      result := v;
    case None =>
      var d: seq<(string, Value)> := [];
      d := Assign(d, "explanation", Str(ErrorExplanation));
      d := Assign(d, "score", Int(ErrorScore));
      AssignmentsBuildErrorRecord();
      result := Obj(d);
  }

  /** The error record carries exactly the two keys, with the sentinel values. */
  lemma ErrorRecordShape()
    ensures ErrorRecord.Obj? && Keys(ErrorRecord.entries) == ["explanation", "score"]
    ensures Lookup(ErrorRecord.entries, "explanation") == Some(Str("Error parsing JSON response."))
    ensures Lookup(ErrorRecord.entries, "score") == Some(Int(-1))
  {
  }

  /** A reply that already starts with `{` and ends with `}` reaches the decoder unchanged. */
  lemma BracedReplyUnchanged(s: string)
    requires StartsWith(s, "{") && EndsWith(s, "}")
    ensures ParserInput(s) == s
  {
  }

  /** A reply with no brace at all reaches the decoder unchanged. */
  lemma BracelessReplyUnchanged(s: string)
    requires '{' !in s && '}' !in s
    ensures ParserInput(s) == s
  {
  }

  /** After a right trim the text holds exactly one `}`, its last character. */
  lemma RightFixSingleClosingBrace(s: string)
    requires !EndsWith(s, "}") && '}' in s
    ensures CountChar(RightFix(s), '}') == 1 && EndsWith(RightFix(s), "}")
  {
    var r := RightFix(s);
    assert r == r[..|r| - 1] + ['}'];
    CountCharAppend(r[..|r| - 1], ['}'], '}');
  }

  /** The decoder sees a text starting with `{` whenever the reply held a `{`,
      and ending with `}` whenever the left-trimmed text held a `}`;
      without a `}` there is no right trim at all. */
  lemma ParserInputFramed(s: string)
    ensures '{' in s ==> StartsWith(ParserInput(s), "{")
    ensures '}' in LeftFix(s) ==> EndsWith(ParserInput(s), "}")
    ensures '}' !in LeftFix(s) ==> ParserInput(s) == LeftFix(s)
  {
    var l := LeftFix(s);
    if '{' in s {
      assert StartsWith(l, "{");
      if !EndsWith(l, "}") && '}' in l {
        var r := RightFix(l);
        assert r[..1] == l[..1];
      }
    }
  }

  /** Trimming twice is trimming once: the decoder's input is a fixed point. */
  lemma ParserInputIdempotent(s: string)
    ensures ParserInput(ParserInput(s)) == ParserInput(s)
  {
    var l := LeftFix(s);
    var p := ParserInput(s);
    ParserInputFramed(s);
    if '{' in s {
      assert LeftFix(p) == p;
    } else {
      assert '{' !in l;
      assert p == l || p == l[..|p|];
      assert '{' !in p;
      assert LeftFix(p) == p;
    }
    if '}' in l {
      assert RightFix(p) == p;
    } else {
      assert p == l;
    }
  }

  /** A flat object surrounded by filler is extracted: the decoder sees the
      object from its `{` up to the first `}` after it, whatever follows.
      The body may itself hold a `{`: with `body` = `"a": {"b":1` and
      `post` = `} extra {`, the inner object's `}` ends the decoder's input. */
  lemma FlatObjectExtracted(pre: string, body: string, post: string)
    requires '{' !in pre && '}' !in pre && '}' !in body
    requires post == [] || !EndsWith(post, "}")
    ensures ParserInput(pre + "{" + body + "}" + post) == "{" + body + "}"
  {
    var obj := "{" + body + "}";
    assert pre + "{" + body + "}" + post == pre + (obj + post);
    LeftFixDropsPrefix(pre, obj + post);
    RightFixDropsSuffix(body, post);
  }

  /** A nested object is cut at its inner `}`: the decoder sees
      `{"a": {"b":1}` for the reply `{"a": {"b":1}} extra {`. */
  lemma NestedReplyCutAtInnerBrace()
    ensures ParserInput("{\"a\": {\"b\":1}} extra {") == "{\"a\": {\"b\":1}"
  {
    var body := "\"a\": {\"b\":1";
    var post := "} extra {";
    var reply := "{\"a\": {\"b\":1}} extra {";
    assert reply == [] + "{" + body + "}" + post;
    assert "{" + body + "}" == "{\"a\": {\"b\":1}";
    FlatObjectExtracted([], body, post);
    assert ParserInput(reply) == "{" + body + "}";
  }

  /** Filler without `{` before a text that starts with `{` is dropped. */
  lemma LeftFixDropsPrefix(pre: string, rest: string)
    requires '{' !in pre && StartsWith(rest, "{")
    ensures LeftFix(pre + rest) == rest
  {
    var s := pre + rest;
    if pre == [] {
      assert s == rest;
    } else {
      assert s[|pre|] == '{' && s[..|pre|] == pre;
      IndexOfUnique(s, '{', |pre|);
      assert s[|pre|..] == rest;
    }
  }

  /** Whatever follows the first `}` is dropped, unless the text ends with `}`. */
  lemma RightFixDropsSuffix(body: string, post: string)
    requires '}' !in body
    requires post == [] || !EndsWith(post, "}")
    ensures RightFix("{" + body + "}" + post) == "{" + body + "}"
  {
    var obj := "{" + body + "}";
    var l := obj + post;
    assert l[|body| + 1] == '}' && l[..|body| + 1] == "{" + body;
    IndexOfUnique(l, '}', |body| + 1);
    if post == [] {
      assert l == obj;
    } else {
      assert l[|l| - 1..] == post[|post| - 1..];
      assert l[..|body| + 2] == obj;
    }
  }

}
