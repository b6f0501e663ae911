/** `validate(fields)`: the middleware that rejects a request whose body
    lacks any of the listed fields, listing every missing one. */
module Validate {
  import opened Common
  import opened JsValues
  import opened Http

  /** A field is missing when its value is undefined, null or the empty
      string; 0 and false count as present. */
  predicate IsMissing(v: JsValue)
  {
    v == Undefined || v == Null || v == Str("")
  }

  /** The missing fields, in the order they are listed. */
  function MissingFields(fields: seq<string>, body: JsObject): (r: seq<string>)
    ensures |r| <= |fields|
    ensures forall f :: f in r ==> f in fields && IsMissing(Get(body, f))
  {
    if fields == [] then []
    else
      var init := fields[..|fields| - 1];
      var f := fields[|fields| - 1];
      MissingFields(init, body) + (if IsMissing(Get(body, f)) then [f] else [])
  }

  /** Every listed field that is missing is reported. */
  lemma {:induction false} MissingFieldsComplete(fields: seq<string>, body: JsObject, i: int)
    requires 0 <= i < |fields| && IsMissing(Get(body, fields[i]))
    ensures fields[i] in MissingFields(fields, body)
    decreases |fields|
  {
    if i < |fields| - 1 {
      MissingFieldsComplete(fields[..|fields| - 1], body, i);
    }
  }

  /** Nothing is reported exactly when every listed field is present. */
  lemma MissingFieldsEmptyIff(fields: seq<string>, body: JsObject)
    ensures MissingFields(fields, body) == [] <==>
            forall i :: 0 <= i < |fields| ==> !IsMissing(Get(body, fields[i]))
  {
    if MissingFields(fields, body) == [] {
      forall i | 0 <= i < |fields|
        ensures !IsMissing(Get(body, fields[i]))
      {
        if IsMissing(Get(body, fields[i])) {
          MissingFieldsComplete(fields, body, i);
        }
      }
    }
  }

  /** Checking two lists of fields one after the other reports the missing
      fields of the first, then those of the second. */
  lemma {:induction false} MissingFieldsAppend(a: seq<string>, b: seq<string>, body: JsObject)
    ensures MissingFields(a + b, body) == MissingFields(a, body) + MissingFields(b, body)
    decreases |b|
  {
    if b == [] {
      assert a + b == a;
    } else {
      var init := b[..|b| - 1];
      var f := b[|b| - 1];
      var x := if IsMissing(Get(body, f)) then [f] else [];
      assert b == init + [f];
      assert a + b == (a + init) + [f];
      calc {
        MissingFields(a + b, body);
        MissingFields((a + init) + [f], body);
        { MissingFieldsSnoc(a + init, f, body); }
        MissingFields(a + init, body) + x;
        { MissingFieldsAppend(a, init, body); }
        (MissingFields(a, body) + MissingFields(init, body)) + x;
        MissingFields(a, body) + (MissingFields(init, body) + x);
        { MissingFieldsSnoc(init, f, body); }
        MissingFields(a, body) + MissingFields(b, body);
      }
    }
  }

  /** Checking one more field adds it to the report exactly when it is missing. */
  lemma MissingFieldsSnoc(fields: seq<string>, f: string, body: JsObject)
    ensures MissingFields(fields + [f], body)
         == MissingFields(fields, body) + (if IsMissing(Get(body, f)) then [f] else [])
  {
    assert (fields + [f])[..|fields|] == fields;
  }

  /** `${f} is required`, one per missing field. */
  function Messages(missing: seq<string>): (r: seq<JsValue>)
    ensures |r| == |missing|
    ensures forall i :: 0 <= i < |missing| ==> r[i] == Str(missing[i] + " is required")
  {
    if missing == [] then []
    else Messages(missing[..|missing| - 1]) + [Str(missing[|missing| - 1] + " is required")]
  }

  lemma MessagesSnoc(missing: seq<string>, f: string)
    ensures Messages(missing + [f]) == Messages(missing) + [Str(f + " is required")]
  {
    assert (missing + [f])[..|missing|] == missing;
  }

  /** One more field checked: its message is added exactly when it is missing. */
  lemma CollectStep(fields: seq<string>, body: JsObject, i: int)
    requires 0 <= i < |fields|
    ensures Messages(MissingFields(fields[..i + 1], body))
         == Messages(MissingFields(fields[..i], body))
            + (if IsMissing(Get(body, fields[i])) then [Str(fields[i] + " is required")] else [])
  {
    var seen := fields[..i];
    assert fields[..i + 1] == seen + [fields[i]];
    MissingFieldsSnoc(seen, fields[i], body);
    if IsMissing(Get(body, fields[i])) {
      MessagesSnoc(MissingFields(seen, body), fields[i]);
    }
  }

  /** The loop of the middleware: one message per missing field, in the
      order the fields are listed. */
  method CollectErrors(fields: seq<string>, body: JsObject) returns (errors: seq<JsValue>)
    ensures errors == Messages(MissingFields(fields, body))
  {
    errors := [];
    var i := 0;
    while i < |fields|
      invariant 0 <= i <= |fields|
      invariant errors == Messages(MissingFields(fields[..i], body))
    {
      CollectStep(fields, body, i);
      if IsMissing(Get(body, fields[i])) {
        errors := errors + [Str(fields[i] + " is required")];
      }
      i := i + 1;
    }
    assert fields[..i] == fields;
  }

  /** The middleware run on one request. */
  method Validate(fields: seq<string>, body: JsObject) returns (r: Reply)
    ensures r.Next? <==> forall i :: 0 <= i < |fields| ==> !IsMissing(Get(body, fields[i]))
    ensures r.Respond? ==>
      r == Respond(400, map["message" := Str("Please fill all the required fields"),
                            "errors" := Arr(Messages(MissingFields(fields, body)))])
  {
    var errors := CollectErrors(fields, body);
    MissingFieldsEmptyIff(fields, body);
    if |errors| > 0 {
      r := Respond(400, map["message" := Str("Please fill all the required fields"), "errors" := Arr(errors)]);
    } else {
      r := Next;
    }
  }
}
