/** The fluent request builder: a mutable accumulator of headers, cookies,
    parameters, body, file, method, format and timeout, turned into a request
    descriptor by `Create`. Each mutator validates its own arguments; where the
    source throws, the method returns `Fail`. Every mutator except
    `AddParameters` fails before changing anything; `AddParameters` fails after
    its first replacement has changed the list. The source's mutators also
    return `this` for chaining, which is left implicit here. */
module Builder {
  import opened Values
  import opened RestTypes
  import opened ParameterList

  /** `foreach (var entry in m)` copying every entry of a dictionary. */
  method CopyEntries(m: map<string, string>) returns (r: map<string, string>)
    ensures r == m
  {
    r := map[];
    var todo := m.Keys;
    while todo != {}
      invariant todo <= m.Keys
      invariant r == m - todo
      decreases todo
    {
      var key :| key in todo;
      r := r[key := m[key]];
      todo := todo - {key};
    }
  }

  /** One more entry of `incoming` merged in: the invariant of `AddHeaders`'s loop moves on. */
  lemma MergeStep(base: map<string, string>, incoming: map<string, string>, todo: set<string>, key: string)
    requires key in todo && key in incoming
    ensures (base + (incoming - todo))[key := incoming[key]] == base + (incoming - (todo - {key}))
  {
  }

  /** Overwriting or inserting one entry: the count grows by one exactly when the key was absent. */
  lemma PutCount(m: map<string, string>, key: string, value: string)
    ensures |m[key := value]| == if key in m then |m| else |m| + 1
  {
    if key in m {
      assert m[key := value].Keys == m.Keys;
    } else {
      assert m[key := value].Keys == m.Keys + {key};
    }
  }

  class RestBuilder {
    const resource: string
    var headers: map<string, string>
    var cookies: map<string, string>
    var parameters: seq<Parameter>
    var format: DataFormat
    var httpMethod: Method
    var body: Option<Obj>
    var timeout: int32
    /** The file fields; "" stands for the null they hold before `AddFile`. */
    var fileName: string
    var filePath: string
    var fileType: Option<string>

    /** The timeout is never negative, and a file has both a name and a path or neither. */
    ghost predicate Valid()
      reads this`timeout, this`fileName, this`filePath
    {
      0 <= timeout && (fileName == "" <==> filePath == "")
    }

    /** The state every constructor leaves behind. */
    ghost predicate IsInitial(resource: string, httpMethod: Method, format: DataFormat)
      reads this
    {
      && this.resource == resource && this.httpMethod == httpMethod && this.format == format
      && headers == map[] && cookies == map[] && parameters == []
      && body == None && timeout == 0
      && fileName == "" && filePath == "" && fileType == None
    }

    /** The field initialisation shared by all public constructors. */
    constructor Init(resource: string, httpMethod: Method, format: DataFormat)
      ensures Valid() && IsInitial(resource, httpMethod, format)
    {
      this.resource := resource;
      headers := map[];
      parameters := [];
      this.httpMethod := httpMethod;
      this.format := format;
      cookies := map[];
      timeout := 0;
      body := None;
      fileName, filePath, fileType := "", "", None;
    }

    /** `new RestBuilder(string resource)`: GET and Json; a null or empty resource throws. */
    static method FromString(resource: string) returns (r: Result<RestBuilder>)
      ensures r.Err? <==> resource == ""
      ensures r.Err? ==> r.error == ArgumentNull("resource")
      ensures r.Ok? ==> fresh(r.value) && r.value.Valid() && r.value.IsInitial(resource, GET, Json)
    {
      if resource == "" {
        return Err(ArgumentNull("resource"));
      }
      var b := new RestBuilder.Init(resource, GET, Json);
      return Ok(b);
    }

    /** `new RestBuilder(FormattableString resource)`: only null is rejected; the
        resource is the formatted text, which may be empty. */
    static method FromFormattable(formatted: Option<string>) returns (r: Result<RestBuilder>)
      ensures r.Err? <==> formatted.None?
      ensures r.Err? ==> r.error == ArgumentNull("resource")
      ensures r.Ok? ==> fresh(r.value) && r.value.Valid() && r.value.IsInitial(formatted.value, GET, Json)
    {
      if formatted.None? {
        return Err(ArgumentNull("resource"));
      }
      var b := new RestBuilder.Init(formatted.value, GET, Json);
      return Ok(b);
    }

    /** `new RestBuilder(Uri resource)`: only null is rejected; the resource is the URI's text. */
    static method FromUri(uriText: Option<string>) returns (r: Result<RestBuilder>)
      ensures r.Err? <==> uriText.None?
      ensures r.Err? ==> r.error == ArgumentNull("resource")
      ensures r.Ok? ==> fresh(r.value) && r.value.Valid() && r.value.IsInitial(uriText.value, GET, Json)
    {
      if uriText.None? {
        return Err(ArgumentNull("resource"));
      }
      var b := new RestBuilder.Init(uriText.value, GET, Json);
      return Ok(b);
    }

    /** `new RestBuilder(string resource, Method method)`: format Json. */
    static method FromStringWithMethod(resource: string, httpMethod: Method) returns (r: Result<RestBuilder>)
      ensures r.Err? <==> resource == ""
      ensures r.Err? ==> r.error == ArgumentNull("resource")
      ensures r.Ok? ==> fresh(r.value) && r.value.Valid() && r.value.IsInitial(resource, httpMethod, Json)
    {
      if resource == "" {
        return Err(ArgumentNull("resource"));
      }
      var b := new RestBuilder.Init(resource, httpMethod, Json);
      return Ok(b);
    }

    /** `new RestBuilder(string resource, Method method, DataFormat format)`. */
    static method FromStringWithMethodAndFormat(resource: string, httpMethod: Method, format: DataFormat)
      returns (r: Result<RestBuilder>)
      ensures r.Err? <==> resource == ""
      ensures r.Err? ==> r.error == ArgumentNull("resource")
      ensures r.Ok? ==> fresh(r.value) && r.value.Valid() && r.value.IsInitial(resource, httpMethod, format)
    {
      if resource == "" {
        return Err(ArgumentNull("resource"));
      }
      var b := new RestBuilder.Init(resource, httpMethod, format);
      return Ok(b);
    }

    /** `HeaderCount`: the number of distinct header names. */
    function HeaderCount(): (n: nat)
      reads this`headers
      ensures n == 0 <==> headers == map[]
    {
      |headers|
    }

    /** `AddBody`: null throws; otherwise the body is replaced, last write wins. */
    method AddBody(newBody: Option<Obj>) returns (o: Outcome)
      modifies this`body
      ensures newBody.None? ==> o == Fail(ArgumentNull("body")) && body == old(body)
      ensures newBody.Some? ==> o == Pass && body == newBody
    {
      if newBody.None? {
        return Fail(ArgumentNull("body"));
      }
      body := newBody;
      return Pass;
    }

    /** `AddFile`: an empty name or path throws (name checked first); otherwise
        the single attachment is replaced. */
    method AddFile(name: string, path: string, contentType: Option<string>) returns (o: Outcome)
      requires Valid()
      modifies this`fileName, this`filePath, this`fileType
      ensures Valid()
      ensures name == "" ==> o == Fail(ArgumentNull("name"))
      ensures name != "" && path == "" ==> o == Fail(ArgumentNull("path"))
      ensures o.Fail? ==> fileName == old(fileName) && filePath == old(filePath) && fileType == old(fileType)
      ensures name != "" && path != "" ==>
                o == Pass && fileName == name && filePath == path && fileType == contentType
    {
      if name == "" {
        return Fail(ArgumentNull("name"));
      }
      if path == "" {
        return Fail(ArgumentNull("path"));
      }
      fileName := name;
      filePath := path;
      fileType := contentType;
      return Pass;
    }

    /** `SetFormat`. */
    method SetFormat(newFormat: DataFormat)
      modifies this`format
      ensures format == newFormat
    {
      format := newFormat;
    }

    /** `AddHeader`: the value is overwritten only when it differs, which
        amounts to the map sending `name` to `value` afterwards. */
    method AddHeader(name: string, value: string)
      modifies this`headers
      ensures headers == old(headers)[name := value]
      ensures HeaderCount() == if name in old(headers) then old(HeaderCount()) else old(HeaderCount()) + 1
    {
      PutCount(headers, name, value);
      if name in headers {
        if value != headers[name] {
          headers := headers[name := value];
        } else {
          assert headers == headers[name := value];
        }
        return;
      }
      headers := headers[name := value];
    }

    /** `AddCookie`: same overwrite-if-different rule on the cookie map. */
    method AddCookie(name: string, value: string)
      modifies this`cookies
      ensures cookies == old(cookies)[name := value]
      ensures |cookies| == if name in old(cookies) then |old(cookies)| else |old(cookies)| + 1
    {
      PutCount(cookies, name, value);
      if name in cookies {
        if value != cookies[name] {
          cookies := cookies[name := value];
        } else {
          assert cookies == cookies[name := value];
        }
        return;
      }
      cookies := cookies[name := value];
    }

    /** `AddHeaders`: `AddHeader`'s rule for every incoming entry, in any
        enumeration order: incoming values win, other old headers stay. */
    method AddHeaders(incoming: map<string, string>)
      modifies this`headers
      ensures headers == old(headers) + incoming
    {
      var todo := incoming.Keys;
      while todo != {}
        invariant todo <= incoming.Keys
        invariant headers == old(headers) + (incoming - todo)
        decreases todo
      {
        var key :| key in todo;
        var value := incoming[key];
        MergeStep(old(headers), incoming, todo, key);
        if key in headers {
          if headers[key] != value {
            headers := headers[key := value];
          } else {
            assert headers == headers[key := value];
          }
        } else {
          headers := headers[key := value];
        }
        todo := todo - {key};
      }
      assert incoming - todo == incoming;
    }

    /** `SetMethod`. */
    method SetMethod(newMethod: Method)
      modifies this`httpMethod
      ensures httpMethod == newMethod
    {
      httpMethod := newMethod;
    }

    /** `SetTimeout`: a negative value throws; otherwise it is stored as is. */
    method SetTimeout(newTimeout: int32) returns (o: Outcome)
      requires Valid()
      modifies this`timeout
      ensures Valid()
      ensures newTimeout < 0 ==> o == Fail(ArgumentOutOfRange("timeout")) && timeout == old(timeout)
      ensures newTimeout >= 0 ==> o == Pass && timeout == newTimeout
    {
      if newTimeout < 0 {
        return Fail(ArgumentOutOfRange("timeout"));
      }
      timeout := newTimeout;
      return Pass;
    }

    /** `AddParameter`: null throws; a parameter equal to one already present is dropped. */
    method AddParameter(parameter: Option<Parameter>) returns (o: Outcome)
      modifies this`parameters
      ensures parameter.None? ==> o == Fail(ArgumentNull("parameter")) && parameters == old(parameters)
      ensures parameter.Some? ==> o == Pass && parameter.value in parameters
      ensures parameter.Some? && parameter.value in old(parameters) ==> parameters == old(parameters)
      ensures parameter.Some? && parameter.value !in old(parameters) ==> parameters == old(parameters) + [parameter.value]
    {
      if parameter.None? {
        return Fail(ArgumentNull("parameter"));
      }
      if parameter.value !in parameters {
        parameters := parameters + [parameter.value];
      }
      return Pass;
    }

    /** `AddParameters` as written: the duplicates are enumerated lazily over the
        live list, so once the first replacement has changed the list, the next
        step of the enumeration throws `InvalidOperationException`. */
    method AddParameters(incoming: seq<Parameter>) returns (o: Outcome)
      modifies this`parameters
      ensures ListUpdate(o, parameters) == AddParametersAsWritten(old(parameters), incoming)
    {
      var duplicates := Intersect(parameters, incoming);
      if duplicates == [] {
        parameters := parameters + incoming;
        return Pass;
      }
      var modified := false;
      var i := 0;
      while i < |duplicates|
        invariant 0 <= i <= 1 && i <= |duplicates|
        invariant modified <==> i == 1
        invariant parameters == ReplaceEach(old(parameters), duplicates[..i], incoming)
      {
        if modified {
          return Fail(InvalidOperation);
        }
        var dup := duplicates[i];
        var param := FindByName(incoming, dup.name);
        FindByNameOfMember(incoming, dup);
        ReplaceEachSnoc(old(parameters), duplicates[..i], dup, incoming);
        assert duplicates[..i + 1] == duplicates[..i] + [dup];
        if param.Some? {
          parameters := RemoveFirst(parameters, dup) + [param.value];
          modified := true;
        }
        i := i + 1;
      }
      if modified {
        return Fail(InvalidOperation);
      }
      return Pass;
    }

    /** `AddParameters` corrected: the duplicates are enumerated from a snapshot
        taken before the list changes, so every one of them is replaced. */
    method AddParametersSnapshot(incoming: seq<Parameter>)
      modifies this`parameters
      ensures parameters == AddParametersIntended(old(parameters), incoming)
    {
      var duplicates := Intersect(parameters, incoming);
      if duplicates == [] {
        parameters := parameters + incoming;
        return;
      }
      var i := 0;
      while i < |duplicates|
        invariant 0 <= i <= |duplicates|
        invariant parameters == ReplaceEach(old(parameters), duplicates[..i], incoming)
      {
        var dup := duplicates[i];
        var param := FindByName(incoming, dup.name);
        ReplaceEachSnoc(old(parameters), duplicates[..i], dup, incoming);
        assert duplicates[..i + 1] == duplicates[..i] + [dup];
        ghost var next := ReplaceOne(parameters, dup, incoming);
        if param.Some? {
          parameters := RemoveFirst(parameters, dup) + [param.value];
        }
        assert parameters == next;
        i := i + 1;
      }
      assert duplicates[..i] == duplicates;
      assert duplicates == Intersect(old(parameters), incoming);
    }

    /** `RemoveHeader`: a null or empty name throws; an absent name is a no-op. */
    method RemoveHeader(name: string) returns (o: Outcome)
      modifies this`headers
      ensures name == "" ==> o == Fail(ArgumentNull("name")) && headers == old(headers)
      ensures name != "" ==> o == Pass && headers == old(headers) - {name}
      ensures name !in old(headers) ==> headers == old(headers)
    {
      if name == "" {
        return Fail(ArgumentNull("name"));
      }
      if name in headers {
        headers := headers - {name};
      } else {
        assert headers - {name} == headers;
      }
      return Pass;
    }

    /** `RemoveHeaders`. */
    method RemoveHeaders()
      modifies this`headers
      ensures headers == map[]
    {
      headers := map[];
    }

    /** `RemoveCookies`. */
    method RemoveCookies()
      modifies this`cookies
      ensures cookies == map[]
    {
      cookies := map[];
    }

    /** `RemoveParameters`. */
    method RemoveParameters()
      modifies this`parameters
      ensures parameters == []
    {
      parameters := [];
    }

    /** `RemoveParameter`: null throws; otherwise the first parameter with the
        same NAME (not an equal one) is removed, and nothing happens when no
        parameter has that name. */
    method RemoveParameter(parameter: Option<Parameter>) returns (o: Outcome)
      modifies this`parameters
      ensures parameter.None? ==> o == Fail(ArgumentNull("parameter")) && parameters == old(parameters)
      ensures parameter.Some? ==> o == Pass
      ensures parameter.Some? ==>
                var i := IndexOfName(old(parameters), parameter.value.name);
                if i == |old(parameters)| then parameters == old(parameters)
                else (parameters == old(parameters)[..i] + old(parameters)[i + 1..]
                      && |parameters| == |old(parameters)| - 1)
    {
      if parameter.None? {
        return Fail(ArgumentNull("parameter"));
      }
      var name := parameter.value.name;
      // `List.Find(p => p.Name == name)`
      var i := 0;
      while i < |parameters| && parameters[i].name != name
        invariant 0 <= i <= |parameters|
        invariant forall j :: 0 <= j < i ==> parameters[j].name != name
      {
        i := i + 1;
      }
      assert i == IndexOfName(parameters, name) by {
        FirstNameIndexIsUnique(parameters, name, i);
      }
      if i == |parameters| {
        return Pass;
      }
      // `List.Remove(param)` drops the first element equal to the one found,
      // which is the found one itself: every earlier element has another name.
      var param := parameters[i];
      RemoveFirstAt(parameters, i);
      parameters := RemoveFirst(parameters, param);
      return Pass;
    }

    /** `Create`: materialises the accumulated state without changing it.
        Parameters keep their list order, the body is included when set, the
        file when both its name and path are non-empty. */
    method Create() returns (d: Descriptor)
      requires Valid()
      ensures d.resource == resource && d.httpMethod == httpMethod && d.format == format
      ensures d.parameters == parameters
      ensures d.body == body
      ensures d.headers == headers && d.cookies == cookies
      ensures d.file.Some? <==> fileName != "" && filePath != ""
      ensures d.file.Some? ==> d.file.value == FileAttachment(fileName, filePath, fileType)
      ensures d.timeout == timeout && d.timeout >= 0
    {
      var ps: seq<Parameter> := [];
      var i := 0;
      while i < |parameters|
        invariant 0 <= i <= |parameters|
        invariant ps == parameters[..i]
      {
        ps := ps + [parameters[i]];
        i := i + 1;
      }
      assert parameters[..i] == parameters;
      var b: Option<Obj> := None;
      if body.Some? {
        b := body;
      }
      var hs := CopyEntries(headers);
      var cs := CopyEntries(cookies);
      var file: Option<FileAttachment> := None;
      if fileName != "" && filePath != "" {
        file := Some(FileAttachment(fileName, filePath, fileType));
      }
      d := Descriptor(resource, httpMethod, format, ps, b, hs, cs, file, timeout);
    }
  }

  /** The first position whose name matches is the one `IndexOfName` computes. */
  lemma {:induction false} FirstNameIndexIsUnique(ps: seq<Parameter>, name: string, i: nat)
    requires i <= |ps|
    requires forall j :: 0 <= j < i ==> ps[j].name != name
    requires i < |ps| ==> ps[i].name == name
    ensures i == IndexOfName(ps, name)
    decreases i
  {
    if i > 0 {
      assert ps[0].name != name;
      forall j | 0 <= j < i - 1 ensures ps[1..][j].name != name {
        assert ps[1..][j] == ps[j + 1];
      }
      FirstNameIndexIsUnique(ps[1..], name, i - 1);
    }
  }

  /** Repeating `AddHeader` with the same arguments leaves the headers as one call does. */
  method AddHeaderTwice(builder: RestBuilder, name: string, value: string)
    modifies builder`headers
    ensures builder.headers == old(builder.headers)[name := value]
    ensures builder.HeaderCount() <= old(builder.HeaderCount()) + 1
  {
    builder.AddHeader(name, value);
    ghost var once := builder.headers;
    builder.AddHeader(name, value);
    assert builder.headers == once;
  }

  /** Adding the same parameter twice gives the list that adding it once gives. */
  method AddParameterTwice(builder: RestBuilder, parameter: Parameter)
    modifies builder`parameters
    ensures builder.parameters == if parameter in old(builder.parameters) then old(builder.parameters)
                                  else old(builder.parameters) + [parameter]
  {
    var o := builder.AddParameter(Some(parameter));
    ghost var once := builder.parameters;
    o := builder.AddParameter(Some(parameter));
    assert builder.parameters == once;
  }

  /** A builder can be turned into requests again and again: `Create` leaves it
      reusable, and two calls on an unchanged builder give equal descriptors. */
  method CreateIsRepeatable(builder: RestBuilder) returns (first: Descriptor, second: Descriptor)
    requires builder.Valid()
    ensures first == second
  {
    first := builder.Create();
    second := builder.Create();
  }
}
