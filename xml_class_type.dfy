/**
 * The XML view of a class type seen during annotation processing: an
 * `XmlClassType` decorates a mirror `ClassType` with the type definition that
 * the analysis model recorded for the class's declaration, and derives its
 * XML name, target namespace, qualified name and anonymity from that
 * definition.
 *
 * The ambient analysis model (a process-wide singleton in the program) is an
 * explicit map from declarations to type definitions passed to the
 * constructor. A declaration is an opaque identity.
 */
module XmlClassTypes {
  import opened Wrappers

  /** The identity of a class declaration in the mirror API. */
  type Declaration(==)

  /** A mirror class type; its declaration may be missing (an unresolved type). */
  datatype ClassType = ClassType(declaration: Option<Declaration>)

  /** What the analysis model knows about an XML type. */
  datatype TypeDefinition = TypeDefinition(
    name: Option<string>,
    targetNamespace: Option<string>,
    anonymous: bool)

  /** The analysis model: the type definition found for each declaration. */
  type TypeModel = map<Declaration, TypeDefinition>

  /** The two ways construction fails, each an `XmlTypeException` in the program. */
  datatype XmlTypeException =
    | UnknownTypeDefinition(delegate: ClassType)   // the class type has no declaration
    | UnknownXmlType(declaration: Declaration)     // the model has no definition for it

  /**
   * A constructed XML class type. `typeDef` is a nullable final field in the
   * program; the getters below keep its `null` guards.
   */
  datatype XmlClassType = XmlClassType(delegate: ClassType, typeDef: Option<TypeDefinition>)

  /** The unique definition the model holds for the type's declaration, if any. */
  predicate DefinedIn(t: XmlClassType, model: TypeModel)
  {
    t.delegate.declaration.Some?
    && t.delegate.declaration.value in model
    && t.typeDef == Some(model[t.delegate.declaration.value])
  }

  /**
   * The constructor: fails when the delegate has no declaration, then when
   * the model has no type definition for it; otherwise holds that definition.
   */
  function New(delegate: ClassType, model: TypeModel): (r: Result<XmlClassType, XmlTypeException>)
    ensures r.Success? <==> delegate.declaration.Some? && delegate.declaration.value in model
    ensures r.Failure? && r.error.UnknownTypeDefinition? <==> delegate.declaration.None?
    ensures r.Failure? && r.error.UnknownTypeDefinition? ==> r.error.delegate == delegate
    ensures r.Failure? && r.error.UnknownXmlType? <==>
              delegate.declaration.Some? && delegate.declaration.value !in model
    ensures r.Failure? && r.error.UnknownXmlType? ==> r.error.declaration == delegate.declaration.value
    ensures r.Success? ==> r.value.delegate == delegate && r.value.typeDef.Some? && DefinedIn(r.value, model)
  {
    match delegate.declaration
    case None => Failure(UnknownTypeDefinition(delegate))
    case Some(decl) =>
      if decl !in model then Failure(UnknownXmlType(decl))
      else Success(XmlClassType(delegate, Some(model[decl])))
  }

  /** The definition's name, or `null` when there is no definition. */
  function GetName(t: XmlClassType): (name: Option<string>)
    ensures t.typeDef.None? ==> name.None?
  {
    if t.typeDef.Some? then t.typeDef.value.name else None
  }

  /** The definition's target namespace, or `null` when there is no definition. */
  function GetNamespace(t: XmlClassType): (ns: Option<string>)
    ensures t.typeDef.None? ==> ns.None?
  {
    if t.typeDef.Some? then t.typeDef.value.targetNamespace else None
  }

  /** The definition's anonymous flag, defaulting to `false` when there is no definition. */
  function IsAnonymous(t: XmlClassType): (anonymous: bool)
    ensures t.typeDef.None? ==> !anonymous
  {
    if t.typeDef.Some? then t.typeDef.value.anonymous else false
  }

  /** The type definition held by the type (possibly `null`). */
  function GetTypeDefinition(t: XmlClassType): (def: Option<TypeDefinition>)
    ensures def.None? ==> GetName(t).None? && GetNamespace(t).None? && !IsAnonymous(t)
    ensures def.Some? ==>
              GetName(t) == def.value.name && GetNamespace(t) == def.value.targetNamespace &&
              IsAnonymous(t) == def.value.anonymous
  {
    t.typeDef
  }

  /**
   * A `javax.xml.namespace.QName` built with an empty prefix: the library
   * stores a `null` namespace URI as the empty string and refuses a `null`
   * local part with an `IllegalArgumentException`.
   */
  datatype QName = QName(namespaceURI: string, localPart: string)

  datatype IllegalArgumentException = NullLocalPart

  function NewQName(namespaceURI: Option<string>, localPart: Option<string>): (q: Result<QName, IllegalArgumentException>)
    ensures q.Failure? <==> localPart.None?
    ensures q.Success? ==> q.value.localPart == localPart.value
    ensures q.Success? && namespaceURI.Some? ==> q.value.namespaceURI == namespaceURI.value
    ensures q.Success? && namespaceURI.None? ==> q.value.namespaceURI == ""
  {
    match localPart
    case None => Failure(NullLocalPart)
    case Some(local) => Success(QName(namespaceURI.GetOr(""), local))
  }

  /** The qualified name: namespace first, then local name. */
  function GetQname(t: XmlClassType): (q: Result<QName, IllegalArgumentException>)
    ensures q.Failure? <==> GetName(t).None?
    ensures q.Success? ==>
              q.value.namespaceURI == GetNamespace(t).GetOr("") && q.value.localPart == GetName(t).value
  {
    NewQName(GetNamespace(t), GetName(t))
  }

  /**
   * After a successful construction every getter reads the model's entry for
   * the declaration: the `null` fallbacks of the getters are never taken.
   */
  lemma ConstructedReadsModel(delegate: ClassType, model: TypeModel, t: XmlClassType)
    requires New(delegate, model) == Success(t)
    ensures delegate.declaration.Some? && delegate.declaration.value in model
    ensures GetTypeDefinition(t) == Some(model[delegate.declaration.value])
    ensures GetName(t) == model[delegate.declaration.value].name
    ensures GetNamespace(t) == model[delegate.declaration.value].targetNamespace
    ensures IsAnonymous(t) == model[delegate.declaration.value].anonymous
  {
  }

  /**
   * The qualified name of a constructed type pairs the definition's target
   * namespace (empty when absent) with its name; it can be built exactly
   * when the definition has a name.
   */
  lemma ConstructedQname(delegate: ClassType, model: TypeModel, t: XmlClassType)
    requires New(delegate, model) == Success(t)
    ensures delegate.declaration.Some? && delegate.declaration.value in model
    ensures var def := model[delegate.declaration.value];
      GetQname(t).Success? <==> def.name.Some?
    ensures var def := model[delegate.declaration.value];
      GetQname(t).Success? ==> GetQname(t).value == QName(def.targetNamespace.GetOr(""), def.name.value)
  {
    ConstructedReadsModel(delegate, model, t);
  }

  /**
   * Every class type whose declaration the model defines constructs, and its
   * name and namespace are exactly the ones the model records.
   */
  lemma DefinedTypeResolves(delegate: ClassType, model: TypeModel)
    requires delegate.declaration.Some? && delegate.declaration.value in model
    ensures New(delegate, model).Success?
    ensures var def := model[delegate.declaration.value];
      GetName(New(delegate, model).value) == def.name &&
      GetNamespace(New(delegate, model).value) == def.targetNamespace
  {
    ConstructedReadsModel(delegate, model, New(delegate, model).value);
  }
}
