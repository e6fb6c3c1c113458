/**
 * The JAX-RS context resolver that hands out JAXB contexts at run time.
 *
 * At startup it reads the list of JAXB types packaged as a class-path
 * resource, loads each listed class (skipping those that fail), optionally
 * loads a namespace-prefix mapper, and builds one shared context over all
 * loaded types, wrapped so that every marshaller it creates applies the
 * prefix mapper. Per request, a registered type gets the shared context, an
 * unregistered `@XmlRootElement` type gets a fresh single-type context built
 * best-effort and never cached, and any other type gets `null`.
 *
 * The class loader, the resources, property parsing, reflective construction
 * of the prefix mapper and the JAXB engine are leaves whose behaviour is not
 * visible here: they are function-valued fields of `ClassPath` and `Jaxb`,
 * passed in as parameters.
 */
module JaxbContextResolver {
  import opened Wrappers

  /** A runtime class handle. */
  type Class(==)

  /** The namespace-prefix mapper object, created reflectively from the properties. */
  type PrefixMapper(==)

  /** Parsed `key=value` properties: namespace URI to preferred prefix. */
  type Properties = map<string, string>

  const TypesListResource := "/jaxrs-jaxb-types.list"
  const PrefixPropertiesResource := "/ns2prefix.properties"
  const NamespacePrefixMapperProperty := "com.sun.xml.bind.namespacePrefixMapper"

  /**
   * A class-path resource opened as a UTF-8 text stream: the lines it holds
   * and, optionally, the number of `readLine` calls that succeed before one
   * throws (the stream stays broken from then on).
   */
  datatype Stream = Stream(lines: seq<string>, failAt: Option<nat>)

  /** What one `readLine` call gives: a line, `null` at the end, or an exception. */
  datatype ReadResult = Line(text: string) | EndOfStream | ReadError

  /** The class-loading environment of the resolver. */
  datatype ClassPath = ClassPath(
    loadResource: string -> Option<Stream>,               // `null` when the resource is absent
    loadClass: string -> Option<Class>,                  // `None` when loading throws
    loadProperties: Stream -> Option<Properties>,        // `None` when `Properties.load` throws
    newPrefixMapper: Properties -> Option<PrefixMapper>) // `None` when reflective construction throws

  /** A marshaller, seen through the properties set on it. */
  datatype Marshaller = Marshaller(properties: map<string, PrefixMapper>)

  datatype JaxbException = JaxbException

  /**
   * What a Java call may throw, split the way the `catch` clauses split it:
   * an `Exception`, or an `Error` (a `Throwable` that is not an `Exception`).
   */
  datatype Throwable = Exception | Error

  /** The outcome of `JAXBContext.newInstance` over a set of classes. */
  datatype BuildOutcome = Built | Threw(thrown: Throwable)

  /** The JAXB engine and the `@XmlRootElement` annotation check. */
  datatype Jaxb = Jaxb(
    newInstance: set<Class> -> BuildOutcome,
    createMarshaller: set<Class> -> Result<Marshaller, JaxbException>,
    acceptsProperty: string -> bool,                                // `false` when `setProperty` throws `PropertyException`
    isRootElement: Class -> bool)

  /**
   * A JAXB context: the types it was built over and, when it is wrapped in
   * the prefix-applying delegating context, the mapper the wrapper applies.
   */
  datatype JaxbContext = JaxbContext(covers: set<Class>, prefixMapper: Option<PrefixMapper>)

  /** The resolver's three final fields. */
  datatype Resolver = Resolver(types: set<Class>, prefixMapper: Option<PrefixMapper>, context: JaxbContext)

  // ---------------------------------------------------------------------
  // Reading the type list

  /** The lines handed out before the stream ends or fails. */
  function LinesRead(s: Stream): (read: seq<string>)
    ensures read <= s.lines
    ensures s.failAt.None? ==> read == s.lines
    ensures s.failAt.Some? && s.failAt.value < |s.lines| ==> read == s.lines[..s.failAt.value]
    ensures s.failAt.Some? && s.failAt.value >= |s.lines| ==> read == s.lines
  {
    if s.failAt.Some? && s.failAt.value < |s.lines| then s.lines[..s.failAt.value] else s.lines
  }

  /** The `i`-th call of `readLine` on the stream, counting from zero. */
  function ReadLine(s: Stream, i: nat): (r: ReadResult)
    ensures r.Line? <==> i < |LinesRead(s)|
    ensures r.Line? ==> r.text == LinesRead(s)[i]
    ensures r == ReadError <==> s.failAt.Some? && s.failAt.value <= i
  {
    if s.failAt.Some? && s.failAt.value <= i then ReadError
    else if i < |s.lines| then Line(s.lines[i])
    else EndOfStream
  }

  /** The classes a successful `loadClass` gives, as a set of at most one. */
  function Found(c: Option<Class>): set<Class>
  {
    if c.Some? then {c.value} else {}
  }

  /** The set the loader accumulates over `lines`, adding each class that loads. */
  function Loaded(lines: seq<string>, loadClass: string -> Option<Class>): set<Class>
    decreases |lines|
  {
    if lines == [] then {}
    else Loaded(lines[..|lines| - 1], loadClass) + Found(loadClass(lines[|lines| - 1]))
  }

  /** The type set `loadTypes` returns in a given environment. */
  function LoadedTypes(cp: ClassPath): set<Class>
  {
    match cp.loadResource(TypesListResource)
    case None => {}
    case Some(s) => Loaded(LinesRead(s), cp.loadClass)
  }

  /**
   * `loadTypes`: reads the type list line by line, loading each class and
   * skipping those that fail; a read failure ends the loop and keeps what was
   * loaded. `attempted` is the sequence of names passed to the class loader.
   */
  method LoadTypes(cp: ClassPath) returns (types: set<Class>, ghost attempted: seq<string>)
    ensures cp.loadResource(TypesListResource).None? ==> attempted == [] && types == {}
    ensures cp.loadResource(TypesListResource).Some? ==>
              attempted == LinesRead(cp.loadResource(TypesListResource).value)
    ensures types == Loaded(attempted, cp.loadClass)
    ensures types == LoadedTypes(cp)
  {
    types := {};
    attempted := [];
    var stream := cp.loadResource(TypesListResource);
    if stream.Some? {
      var s := stream.value;
      var i := 0;
      var line := ReadLine(s, i);
      while line.Line?
        invariant i <= |LinesRead(s)|
        invariant line == ReadLine(s, i)
        invariant attempted == LinesRead(s)[..i]
        invariant types == Loaded(attempted, cp.loadClass)
        decreases |LinesRead(s)| - i
      {
        var c := cp.loadClass(line.text);
        if c.Some? {
          types := types + {c.value};
        }
        assert (attempted + [line.text])[..|attempted|] == attempted;
        attempted := attempted + [line.text];
        i := i + 1;
        line := ReadLine(s, i);
      }
      assert LinesRead(s)[..i] == LinesRead(s);
    }
  }

  // ---------------------------------------------------------------------
  // Properties of the loaded type set

  /** A class is loaded exactly when some line read names it successfully. */
  lemma {:induction false} LoadedMembers(lines: seq<string>, loadClass: string -> Option<Class>, c: Class)
    ensures c in Loaded(lines, loadClass) <==>
              exists i :: 0 <= i < |lines| && loadClass(lines[i]) == Some(c)
    decreases |lines|
  {
    if lines != [] {
      var init := lines[..|lines| - 1];
      LoadedMembers(init, loadClass, c);
      if c in Loaded(init, loadClass) {
        var i :| 0 <= i < |init| && loadClass(init[i]) == Some(c);
        assert lines[i] == init[i];
      }
      if exists i :: 0 <= i < |lines| && loadClass(lines[i]) == Some(c) {
        var i :| 0 <= i < |lines| && loadClass(lines[i]) == Some(c);
        if i < |init| {
          assert init[i] == lines[i];
        }
      }
    }
  }

  /** Loading the concatenation of two line lists loads the union of their classes. */
  lemma {:induction false} LoadedAppend(a: seq<string>, b: seq<string>, loadClass: string -> Option<Class>)
    ensures Loaded(a + b, loadClass) == Loaded(a, loadClass) + Loaded(b, loadClass)
    decreases |b|
  {
    if b == [] {
      assert a + b == a;
    } else {
      var init := b[..|b| - 1];
      LoadedAppend(a, init, loadClass);
      assert (a + b)[..|a + b| - 1] == a + init;
      assert (a + b)[|a + b| - 1] == b[|b| - 1];
    }
  }

  /**
   * Only the set of names read matters: reordering the lines or repeating
   * one leaves the loaded set unchanged.
   */
  lemma LoadedDependsOnlyOnNames(a: seq<string>, b: seq<string>, loadClass: string -> Option<Class>)
    requires forall x :: x in a <==> x in b
    ensures Loaded(a, loadClass) == Loaded(b, loadClass)
  {
    forall c | c in Loaded(a, loadClass)
      ensures c in Loaded(b, loadClass)
    {
      LoadedMembers(a, loadClass, c);
      LoadedMembers(b, loadClass, c);
      var i :| 0 <= i < |a| && loadClass(a[i]) == Some(c);
      assert a[i] in b;
    }
    forall c | c in Loaded(b, loadClass)
      ensures c in Loaded(a, loadClass)
    {
      LoadedMembers(a, loadClass, c);
      LoadedMembers(b, loadClass, c);
      var i :| 0 <= i < |b| && loadClass(b[i]) == Some(c);
      assert b[i] in a;
    }
  }

  /** A line whose class fails to load is skipped: the rest load as if it were absent. */
  lemma FailedLineSkipped(before: seq<string>, bad: string, after: seq<string>, loadClass: string -> Option<Class>)
    requires loadClass(bad).None?
    ensures Loaded(before + [bad] + after, loadClass) == Loaded(before + after, loadClass)
  {
    LoadedAppend(before + [bad], after, loadClass);
    LoadedAppend(before, [bad], loadClass);
    LoadedAppend(before, after, loadClass);
    assert Loaded([bad], loadClass) == {} by {
      assert [bad][..0] == [];
    }
  }

  /** A read failure keeps every class loaded from the lines read before it. */
  lemma ReadFailureKeepsEarlierClasses(s: Stream, loadClass: string -> Option<Class>)
    ensures Loaded(LinesRead(s), loadClass) <= Loaded(s.lines, loadClass)
    ensures s.failAt.Some? && s.failAt.value < |s.lines| ==>
              Loaded(LinesRead(s), loadClass) == Loaded(s.lines[..s.failAt.value], loadClass)
  {
    var read := LinesRead(s);
    assert s.lines == read + s.lines[|read|..];
    LoadedAppend(read, s.lines[|read|..], loadClass);
  }

  /** Duplicates collapse: the set never has more classes than lines were read. */
  lemma {:induction false} LoadedAtMostOnePerLine(lines: seq<string>, loadClass: string -> Option<Class>)
    ensures |Loaded(lines, loadClass)| <= |lines|
    decreases |lines|
  {
    if lines != [] {
      var init := lines[..|lines| - 1];
      LoadedAtMostOnePerLine(init, loadClass);
      var last := Found(loadClass(lines[|lines| - 1]));
      assert |Loaded(init, loadClass) + last| <= |Loaded(init, loadClass)| + |last|;
    }
  }

  // ---------------------------------------------------------------------
  // The prefix mapper

  /**
   * `loadPrefixMapper`: the mapper built from the prefix properties, or
   * `null` when the resource is absent, cannot be parsed, or the mapper
   * cannot be constructed. It never throws.
   */
  function LoadPrefixMapper(cp: ClassPath): (mapper: Option<PrefixMapper>)
    ensures cp.loadResource(PrefixPropertiesResource).None? ==> mapper.None?
    ensures (cp.loadResource(PrefixPropertiesResource).Some? &&
             cp.loadProperties(cp.loadResource(PrefixPropertiesResource).value).None?) ==> mapper.None?
    ensures mapper.Some? ==>
              var stream := cp.loadResource(PrefixPropertiesResource);
              stream.Some? && cp.loadProperties(stream.value).Some? &&
              mapper == cp.newPrefixMapper(cp.loadProperties(stream.value).value)
    ensures mapper.None? && cp.loadResource(PrefixPropertiesResource).Some? ==>
              var props := cp.loadProperties(cp.loadResource(PrefixPropertiesResource).value);
              props.None? || cp.newPrefixMapper(props.value).None?
  {
    match cp.loadResource(PrefixPropertiesResource)
    case None => None
    case Some(stream) =>
      match cp.loadProperties(stream)
      case None => None
      case Some(props) => cp.newPrefixMapper(props)
  }

  // ---------------------------------------------------------------------
  // Contexts and the prefix-applying wrapper

  /**
   * `createMarshaller` of a context: the engine's marshaller for the
   * context's types; a wrapped context then sets the prefix-mapper property,
   * and when the engine rejects it the marshaller is returned as it was.
   */
  function CreateMarshaller(jaxb: Jaxb, ctx: JaxbContext): (r: Result<Marshaller, JaxbException>)
    ensures r.Failure? <==> jaxb.createMarshaller(ctx.covers).Failure?
    ensures r.Success? ==>
              r.value.properties - {NamespacePrefixMapperProperty}
              == jaxb.createMarshaller(ctx.covers).value.properties - {NamespacePrefixMapperProperty}
    ensures r.Success? && (ctx.prefixMapper.None? || !jaxb.acceptsProperty(NamespacePrefixMapperProperty)) ==>
              r == jaxb.createMarshaller(ctx.covers)
    ensures r.Success? && ctx.prefixMapper.Some? && jaxb.acceptsProperty(NamespacePrefixMapperProperty) ==>
              NamespacePrefixMapperProperty in r.value.properties &&
              r.value.properties[NamespacePrefixMapperProperty] == ctx.prefixMapper.value
  {
    match jaxb.createMarshaller(ctx.covers)
    case Failure(e) => Failure(e)
    case Success(m) =>
      match ctx.prefixMapper
      case None => Success(m)
      case Some(mapper) =>
        if jaxb.acceptsProperty(NamespacePrefixMapperProperty) then
          Success(Marshaller(m.properties[NamespacePrefixMapperProperty := mapper]))
        else
          Success(m)
  }

  /** The resolver's fields agree: the shared context covers `types` and is wrapped exactly when a mapper exists. */
  predicate Valid(r: Resolver)
  {
    r.context == JaxbContext(r.types, r.prefixMapper)
  }

  /**
   * The constructor: loads the types and the prefix mapper, then builds the
   * shared context over all types, wrapped when a mapper was loaded. Whatever
   * the engine throws while building the shared context propagates.
   */
  method NewResolver(cp: ClassPath, jaxb: Jaxb) returns (r: Result<Resolver, Throwable>)
    ensures r.Success? <==> jaxb.newInstance(LoadedTypes(cp)).Built?
    ensures r.Failure? ==> r.error == jaxb.newInstance(LoadedTypes(cp)).thrown
    ensures r.Success? ==>
              && r.value.types == LoadedTypes(cp)
              && r.value.prefixMapper == LoadPrefixMapper(cp)
              && Valid(r.value)
  {
    var types, _ := LoadTypes(cp);
    var prefixMapper := LoadPrefixMapper(cp);
    var built := jaxb.newInstance(types);
    if built.Threw? {
      return Failure(built.thrown);
    }
    var context := JaxbContext(types, None);
    if prefixMapper.Some? {
      context := JaxbContext(context.covers, prefixMapper);
    }
    r := Success(Resolver(types, prefixMapper, context));
  }

  /**
   * `getContext`: the shared context for a registered type; for an
   * unregistered root-element type a fresh context over that one type,
   * wrapped like the shared one, or `null` when building it throws an
   * `Exception` (an `Error` is not caught and propagates); `null` for any
   * other type.
   */
  function GetContext(jaxb: Jaxb, r: Resolver, objectType: Class): (res: Result<Option<JaxbContext>, Throwable>)
    ensures objectType in r.types ==> res == Success(Some(r.context))
    ensures objectType !in r.types && !jaxb.isRootElement(objectType) ==> res == Success(None)
    ensures objectType !in r.types && jaxb.isRootElement(objectType) ==>
              && (res.Success? && res.value.Some? <==> jaxb.newInstance({objectType}).Built?)
              && (res == Success(None) <==> jaxb.newInstance({objectType}) == Threw(Exception))
              && (res.Failure? <==> jaxb.newInstance({objectType}) == Threw(Error))
    ensures res.Failure? ==> res.error == Error
    ensures objectType !in r.types && res.Success? && res.value.Some? ==>
              res.value.value.covers == {objectType} && res.value.value.prefixMapper == r.prefixMapper
  {
    if objectType in r.types then
      Success(Some(r.context))
    else if jaxb.isRootElement(objectType) then
      match jaxb.newInstance({objectType})
      case Built =>
        var context := JaxbContext({objectType}, None);
        Success(Some(if r.prefixMapper.Some? then JaxbContext(context.covers, r.prefixMapper) else context))
      case Threw(Exception) => Success(None)
      case Threw(Error) => Failure(Error)
    else
      Success(None)
  }

  // ---------------------------------------------------------------------
  // Properties of context resolution

  /** All registered types share one context, so repeated calls return the same one. */
  lemma RegisteredTypesShareContext(jaxb: Jaxb, r: Resolver, a: Class, b: Class)
    requires a in r.types && b in r.types
    ensures GetContext(jaxb, r, a) == GetContext(jaxb, r, b) == Success(Some(r.context))
  {
  }

  /** A context handed out for a type always covers that type. */
  lemma ResolvedContextCoversType(jaxb: Jaxb, r: Resolver, objectType: Class, ctx: JaxbContext)
    requires Valid(r)
    requires GetContext(jaxb, r, objectType) == Success(Some(ctx))
    ensures objectType in ctx.covers
  {
  }

  /** The fresh context for an unregistered type is never the shared one. */
  lemma FreshContextIsNotShared(jaxb: Jaxb, r: Resolver, objectType: Class, ctx: JaxbContext)
    requires Valid(r)
    requires objectType !in r.types
    requires GetContext(jaxb, r, objectType) == Success(Some(ctx))
    ensures ctx != r.context
  {
    assert objectType in ctx.covers;
  }

  /** Every context handed out is wrapped exactly when the resolver has a prefix mapper, and with that mapper. */
  lemma ResolvedContextWrappedLikeShared(jaxb: Jaxb, r: Resolver, objectType: Class, ctx: JaxbContext)
    requires Valid(r)
    requires GetContext(jaxb, r, objectType) == Success(Some(ctx))
    ensures ctx.prefixMapper == r.prefixMapper
  {
  }

  /**
   * A marshaller from a resolved context carries the resolver's prefix mapper
   * when there is one and the engine accepts the property; otherwise it is
   * the engine's marshaller, untouched.
   */
  lemma ResolvedMarshallerAppliesMapper(jaxb: Jaxb, r: Resolver, objectType: Class, ctx: JaxbContext, m: Marshaller)
    requires Valid(r)
    requires GetContext(jaxb, r, objectType) == Success(Some(ctx))
    requires CreateMarshaller(jaxb, ctx) == Success(m)
    ensures r.prefixMapper.Some? && jaxb.acceptsProperty(NamespacePrefixMapperProperty) ==>
              m.properties[NamespacePrefixMapperProperty] == r.prefixMapper.value
    ensures r.prefixMapper.None? || !jaxb.acceptsProperty(NamespacePrefixMapperProperty) ==>
              Success(m) == jaxb.createMarshaller(ctx.covers)
  {
    ResolvedContextWrappedLikeShared(jaxb, r, objectType, ctx);
  }

  /**
   * End to end: the types registered at startup are exactly the classes that
   * some line read from the type list loads, and none when the list is absent.
   */
  lemma StartupRegistersListedClasses(cp: ClassPath, r: Resolver, c: Class)
    requires r.types == LoadedTypes(cp)
    ensures cp.loadResource(TypesListResource).None? ==> r.types == {}
    ensures cp.loadResource(TypesListResource).Some? ==>
              var read := LinesRead(cp.loadResource(TypesListResource).value);
              (c in r.types <==> exists i :: 0 <= i < |read| && cp.loadClass(read[i]) == Some(c))
  {
    if cp.loadResource(TypesListResource).Some? {
      LoadedMembers(LinesRead(cp.loadResource(TypesListResource).value), cp.loadClass, c);
    }
  }
}
