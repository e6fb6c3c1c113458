# Enunciate: JAXB context resolution and XML class-type names

This project models two small pieces of decision logic from Enunciate and proves properties about them.

- **The Jersey JAXB context resolver** (`EnunciateJAXBContextResolver`, module `JaxbContextResolver`). At startup it reads the type list resource `/jaxrs-jaxb-types.list` one line at a time. It loads the class each line names and skips any that fail. A read failure ends the loop, and the classes loaded so far are kept. It then loads an optional namespace-prefix mapper from `/ns2prefix.properties`. Finally it builds one shared JAXB context over the loaded set. When a mapper exists, that context is wrapped so that each marshaller it creates gets the `com.sun.xml.bind.namespacePrefixMapper` property. A rejected property is ignored. Per request, `getContext` does a three-way dispatch:
  - a registered type gets the shared context;
  - an unregistered `@XmlRootElement` type gets a fresh single-type context, wrapped the same way, built best-effort and never cached;
  - any other type gets `null`.
- **The XML class type** (`XmlClassType`, module `XmlClassTypes`). Its constructor has two failure cases:
  - the mirror class type has no declaration;
  - the analysis model has no type definition for the declaration.
  On success it holds that definition. Its name, namespace, qualified name and anonymity are all read from it.

## How the environment is represented

- Java `null` is `Option.None`. A thrown exception is `Result.Failure` or a `None` result from an abstract leaf.
- These are opaque types: runtime classes (`Class`), the prefix mapper object (`PrefixMapper`) and mirror declarations (`Declaration`).
- The class loader, resource lookup, `Properties.load` and reflective construction of the mapper are function-valued fields of `ClassPath`. The JAXB engine and the `@XmlRootElement` check are function-valued fields of `Jaxb`. Each field may fail, and nothing more is assumed about it.
- An opened text resource is a `Stream`: its lines, plus an optional count of successful `readLine` calls before one throws. `ReadLine` gives the i-th call's result: a line, end of stream, or an error.
- A JAXB context is a value. It records the types it covers and, if it is wrapped, the mapper the wrapper applies. A marshaller is represented by the properties set on it.
- A marshaller's property map holds only prefix-mapper values, because that is the only property this code sets. The engine's acceptance of a property (`Jaxb.acceptsProperty`) depends only on the property's name, not on the marshaller or the value.
- What `JAXBContext.newInstance` throws is either an `Exception` or an `Error` (`Throwable`). The distinction matters because `getContext` catches only `Exception`, while the constructor lets both propagate.
- The resolver's three final fields form the immutable datatype `Resolver`. Construction (`NewResolver`) is a method because it runs the imperative `LoadTypes` loop. The other operations are functions over the fields.
- The analysis model that `XmlClassType` reads through a global singleton is an explicit `map<Declaration, TypeDefinition>` parameter.
- `getQname` builds a `javax.xml.namespace.QName`. The library stores a `null` namespace as `""` and rejects a `null` local part with `IllegalArgumentException`. `NewQName` models both behaviours.
- The code passes every line to the class loader, empty lines included. The model does the same, so an empty line is simply a line whose class fails to load. Empty lines are not filtered out.

## Model

| member | source | states |
|---|---|---|
| `JaxbContextResolver.ReadLine` | jersey-rt/src/main/java/org/codehaus/enunciate/modules/jersey/EnunciateJAXBContextResolver.java:79-87 | `readLine` returns a line exactly while fewer calls have been made than lines were read. The line returned is the next unread one. Once the stream throws, every later call throws too. |
| `JaxbContextResolver.LinesRead` | jersey-rt/src/main/java/org/codehaus/enunciate/modules/jersey/EnunciateJAXBContextResolver.java:79-92 | The lines read are the resource's first `failAt` lines when a read fails before the end. Otherwise they are all of its lines. |
| `JaxbContextResolver.LoadTypes` | jersey-rt/src/main/java/org/codehaus/enunciate/modules/jersey/EnunciateJAXBContextResolver.java:73-97 | When the list resource is missing, the loop attempts nothing and returns the empty set. Otherwise it passes every line read to the class loader exactly once, in order. It returns the set of classes that loaded from those lines, including when a read failure ended the loop. |
| `JaxbContextResolver.LoadedMembers` | jersey-rt/src/main/java/org/codehaus/enunciate/modules/jersey/EnunciateJAXBContextResolver.java:80-88 | A class is in the loaded set if and only if some line read loads it. |
| `JaxbContextResolver.LoadedAppend` | jersey-rt/src/main/java/org/codehaus/enunciate/modules/jersey/EnunciateJAXBContextResolver.java:80-88 | Loading two runs of lines one after the other gives the union of the classes each run loads. |
| `JaxbContextResolver.LoadedDependsOnlyOnNames` | jersey-rt/src/main/java/org/codehaus/enunciate/modules/jersey/EnunciateJAXBContextResolver.java:74-88 | The loaded set depends only on which names were read. Order and repetition do not matter, because the set collapses duplicates. |
| `JaxbContextResolver.FailedLineSkipped` | jersey-rt/src/main/java/org/codehaus/enunciate/modules/jersey/EnunciateJAXBContextResolver.java:81-86 | A line whose class fails to load is skipped. The other lines load exactly as if it were not there. |
| `JaxbContextResolver.ReadFailureKeepsEarlierClasses` | jersey-rt/src/main/java/org/codehaus/enunciate/modules/jersey/EnunciateJAXBContextResolver.java:90-96 | A read failure keeps everything loaded from the lines before it. The result is a subset of what the full list would give, and it equals what that prefix of the list loads. |
| `JaxbContextResolver.LoadedAtMostOnePerLine` | jersey-rt/src/main/java/org/codehaus/enunciate/modules/jersey/EnunciateJAXBContextResolver.java:74-82 | The loaded set has at most as many classes as lines were read. |
| `JaxbContextResolver.StartupRegistersListedClasses` | jersey-rt/src/main/java/org/codehaus/enunciate/modules/jersey/EnunciateJAXBContextResolver.java:51 | The registered types are empty when the list resource is absent. Otherwise they are exactly the classes that some line read loads. |
| `JaxbContextResolver.LoadPrefixMapper` | jersey-rt/src/main/java/org/codehaus/enunciate/modules/jersey/EnunciateJAXBContextResolver.java:99-114 | The result is `null` when the properties resource is absent or cannot be parsed. When the mapper cannot be constructed, the result is also `null`. A present mapper is the one constructed from the parsed properties. The operation never fails. |
| `JaxbContextResolver.CreateMarshaller` | jersey-rt/src/main/java/org/codehaus/enunciate/modules/jersey/EnunciateJAXBContextResolver.java:55-69 | Creating a marshaller fails exactly when the engine's marshaller creation fails. An unwrapped context, or an engine that rejects the property, yields the engine's marshaller untouched. A wrapped context whose engine accepts the property sets the prefix-mapper property to its mapper. No other property ever changes. |
| `JaxbContextResolver.NewResolver` | jersey-rt/src/main/java/org/codehaus/enunciate/modules/jersey/EnunciateJAXBContextResolver.java:50-71 | Construction fails exactly when the engine throws while building a context over the loaded types, and it fails with what was thrown (`Exception` or `Error`). On success, `types` is the loaded set and `prefixMapper` is the loaded mapper. The shared context covers exactly `types` and is wrapped exactly when a mapper exists. |
| `JaxbContextResolver.GetContext` | jersey-rt/src/main/java/org/codehaus/enunciate/modules/jersey/EnunciateJAXBContextResolver.java:163-194 | A registered type gets the shared context. An unregistered non-root type gets `null`. An unregistered root type gets a context exactly when the engine builds one for it, and that context covers exactly that type and carries the resolver's mapper. It gets `null` when the build throws an `Exception`. When the build throws an `Error`, the `Error` propagates. |
| `JaxbContextResolver.RegisteredTypesShareContext` | jersey-rt/src/main/java/org/codehaus/enunciate/modules/jersey/EnunciateJAXBContextResolver.java:163-165 | All registered types, and repeated calls for the same type, get the one shared `context` field. |
| `JaxbContextResolver.ResolvedContextCoversType` | jersey-rt/src/main/java/org/codehaus/enunciate/modules/jersey/EnunciateJAXBContextResolver.java:163-187 | Every context handed out for a type covers that type. |
| `JaxbContextResolver.FreshContextIsNotShared` | jersey-rt/src/main/java/org/codehaus/enunciate/modules/jersey/EnunciateJAXBContextResolver.java:167-187 | The context built for an unregistered type is never the shared context. |
| `JaxbContextResolver.ResolvedContextWrappedLikeShared` | jersey-rt/src/main/java/org/codehaus/enunciate/modules/jersey/EnunciateJAXBContextResolver.java:171-185 | Shared and fresh contexts alike are wrapped exactly when the resolver has a prefix mapper, and they apply that mapper. |
| `JaxbContextResolver.ResolvedMarshallerAppliesMapper` | jersey-rt/src/main/java/org/codehaus/enunciate/modules/jersey/EnunciateJAXBContextResolver.java:172-184 | A marshaller from any resolved context carries the resolver's mapper when one exists and the engine accepts the property. Otherwise it is the engine's marshaller, never failing because of the property. |
| `XmlClassTypes.New` | core/src/java/net/sf/enunciate/contract/jaxb/types/XmlClassType.java:21-34 | Construction succeeds exactly when the class type has a declaration that the model defines, and then holds the model's definition. It fails with the unknown-definition error, naming the class type, exactly when there is no declaration. It fails with the unknown-XML-type error, naming the declaration, exactly when the model has no definition for it. |
| `XmlClassTypes.GetName` | core/src/java/net/sf/enunciate/contract/jaxb/types/XmlClassType.java:41-47 | The name is `null` when there is no type definition. |
| `XmlClassTypes.GetNamespace` | core/src/java/net/sf/enunciate/contract/jaxb/types/XmlClassType.java:54-60 | The namespace is `null` when there is no type definition. |
| `XmlClassTypes.IsAnonymous` | core/src/java/net/sf/enunciate/contract/jaxb/types/XmlClassType.java:76-82 | Anonymity defaults to `false` when there is no type definition. |
| `XmlClassTypes.ConstructedReadsModel` | core/src/java/net/sf/enunciate/contract/jaxb/types/XmlClassType.java:33-91 | After a successful construction, `getTypeDefinition` returns the model's entry for the declaration. `getName`, `getNamespace` and `isAnonymous` return that entry's name, target namespace and anonymous flag. The `null` and `false` fallbacks are never taken. |
| `XmlClassTypes.GetTypeDefinition` | core/src/java/net/sf/enunciate/contract/jaxb/types/XmlClassType.java:89-91 | `getTypeDefinition` returns the definition from which `getName`, `getNamespace` and `isAnonymous` read their values. When it is `null`, those getters give `null`, `null` and `false`. |
| `XmlClassTypes.NewQName` | core/src/java/net/sf/enunciate/contract/jaxb/types/XmlClassType.java:67-69 | A qualified name keeps the local part given and fails exactly when the local part is `null`. Its namespace is the one given, or `""` when that is `null`. |
| `XmlClassTypes.GetQname` | core/src/java/net/sf/enunciate/contract/jaxb/types/XmlClassType.java:67-69 | The qualified name has `getNamespace()` (or `""`) as its namespace and `getName()` as its local part, in that order. It fails exactly when `getName()` is `null`. |
| `XmlClassTypes.ConstructedQname` | core/src/java/net/sf/enunciate/contract/jaxb/types/XmlClassType.java:67-69 | For a constructed type, the qualified name pairs the definition's namespace (`""` if absent) with its name, in that order. It can be built exactly when the definition has a name. |
| `XmlClassTypes.DefinedTypeResolves` | core/src/java/net/sf/enunciate/contract/jaxb/types/XmlClassType.java:23-60 | Every class type whose declaration the model defines constructs successfully. Its name and namespace are exactly the ones the model records. |

## Left out

- Class-loader plumbing is not modelled: `getDefaultClassLoader`, `loadResource` and `loadClass` (thread context class loader, class-path lookup). They appear only as the abstract functions `ClassPath.loadResource` and `ClassPath.loadClass`.
- UTF-8 decoding, line splitting and `Properties.load` are not modelled. The type list is an already-split sequence of lines. A failing `InputStreamReader` is a stream whose first `readLine` fails. Property parsing is an abstract function that may fail.
- The reflective `Class.forName(...).getConstructor(...).newInstance(...)` call is modelled only as "may fail" (`ClassPath.newPrefixMapper`).
- JAXB internals are not modelled. `JAXBContext.newInstance`, `Marshaller` creation and acceptance of the prefix property are abstract. `DelegatingJAXBContext`'s other methods are pass-through and are not modelled.
- Contexts are values, not objects. Two contexts built over the same types with the same mapper are equal in the model, while Java would give distinct objects. The shared context's identity is modelled by handing out the resolver's own `context` field.
- Logging (`LOG.log`) has no observable effect and is left out.
- Exceptions thrown outside the `try` blocks are not modelled. This covers `getResourceAsStream` and `isAnnotationPresent`.
- Concurrent calls to `getContext` are not modelled; the model is sequential. `getContext` is a function of the immutable fields, so it cannot change them.
- The mirror API superclass `DecoratedClassType` and its delegated behaviour are left out. A class type is reduced to its optional declaration.
- The `QName` prefix (always empty here) is left out.
