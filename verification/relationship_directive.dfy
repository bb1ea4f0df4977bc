/** Validation of the `@relationship` directive of a field definition into
    typed relationship metadata. Arguments are checked in a fixed order and
    the first violated check decides the error. */
module RelationshipDirective {
  import opened Wrappers
  import opened Schema
  import opened Seqs

  /** The literal kinds a directive argument can hold in the GraphQL AST;
      every other kind (Int, Float, List, Object, Variable, Null) is folded
      into `OtherValue`. */
  datatype ValueNode =
    | EnumValue(name: string)
    | StringValue(text: string)
    | BooleanValue(flag: bool)
    | OtherValue(kind: string)

  datatype Argument = Argument(name: string, value: ValueNode)

  datatype Directive = Directive(name: string, arguments: Option<seq<Argument>>)

  datatype FieldDefinition = FieldDefinition(directives: Option<seq<Directive>>)

  /** Typed result of a valid directive. */
  datatype RelationshipMeta = RelationshipMeta(
    direction: Direction,
    relType: string,
    properties: Option<string>,
    allowMultiple: Option<bool>)

  datatype MetaError =
    | DirectionRequired
    | DirectionNotEnum
    | DirectionInvalid
    | TypeRequired
    | TypeNotString
    | PropertiesNotString
    | AllowMultipleNotBoolean

  function Message(e: MetaError): string {
    match e
    case DirectionRequired => "@relationship direction required"
    case DirectionNotEnum => "@relationship direction not a enum"
    case DirectionInvalid => "@relationship direction invalid"
    case TypeRequired => "@relationship type required"
    case TypeNotString => "@relationship type not a string"
    case PropertiesNotString => "@relationship properties not a string"
    case AllowMultipleNotBoolean => "@relationship allowMultiple not a boolean"
  }

  const RelationshipDirectiveName: string := "relationship"

  function DirectionName(d: Direction): string {
    match d
    case IN => "IN"
    case OUT => "OUT"
  }

  /** Inverse of `DirectionName` on the two accepted enum values. */
  function ParseDirection(s: string): (r: Option<Direction>)
    ensures r.Some? <==> s == "IN" || s == "OUT"
    ensures r.Some? ==> DirectionName(r.value) == s
  {
    if s == "IN" then Some(IN) else if s == "OUT" then Some(OUT) else None
  }

  /** The first `@relationship` directive of one field definition, if any. */
  function DirectiveOf(field: FieldDefinition): (r: Option<Directive>)
    ensures r.Some? ==> r.value.name == RelationshipDirectiveName && field.directives.Some? && r.value in field.directives.value
    ensures r.None? <==> field.directives.None?
                         || forall j :: 0 <= j < |field.directives.value| ==> field.directives.value[j].name != RelationshipDirectiveName
  {
    if field.directives.None? then None
    else Find(field.directives.value, (d: Directive) => d.name == RelationshipDirectiveName)
  }

  /** The field's own directive, falling back to the interface field's. */
  function ChosenDirective(field: FieldDefinition, interfaceField: Option<FieldDefinition>): (r: Option<Directive>)
    ensures r.Some? ==> r.value.name == RelationshipDirectiveName
    // the field's own directive takes precedence
    ensures DirectiveOf(field).Some? ==> r.Some? && field.directives.Some? && r.value in field.directives.value
    // otherwise the interface field's, when it has one
    ensures DirectiveOf(field).None? ==>
      (r.Some? <==> interfaceField.Some? && DirectiveOf(interfaceField.value).Some?)
      && (r.Some? ==> interfaceField.value.directives.Some? && r.value in interfaceField.value.directives.value)
  {
    if DirectiveOf(field).Some? then DirectiveOf(field)
    else if interfaceField.Some? then DirectiveOf(interfaceField.value)
    else None
  }

  /** The first argument called `name` of a directive, if any. */
  function Arg(d: Directive, name: string): (r: Option<Argument>)
    ensures r.Some? ==> r.value.name == name && d.arguments.Some? && r.value in d.arguments.value
    ensures r.None? <==> d.arguments.None?
                         || forall j :: 0 <= j < |d.arguments.value| ==> d.arguments.value[j].name != name
  {
    if d.arguments.None? then None
    else Find(d.arguments.value, (a: Argument) => a.name == name)
  }

  predicate HasValidDirection(d: Directive) {
    var a := Arg(d, "direction");
    a.Some? && a.value.value.EnumValue? && ParseDirection(a.value.value.name).Some?
  }

  predicate DirectionNotAnEnum(d: Directive) {
    var a := Arg(d, "direction");
    a.Some? && !a.value.value.EnumValue?
  }

  predicate DirectionOutOfRange(d: Directive) {
    var a := Arg(d, "direction");
    a.Some? && a.value.value.EnumValue? && ParseDirection(a.value.value.name).None?
  }

  predicate HasStringType(d: Directive) {
    var a := Arg(d, "type");
    a.Some? && a.value.value.StringValue?
  }

  /** An optional argument is acceptable when absent or of the right kind. */
  predicate OptionalStringOk(d: Directive, name: string) {
    var a := Arg(d, name);
    a.None? || a.value.value.StringValue?
  }

  predicate OptionalBooleanOk(d: Directive, name: string) {
    var a := Arg(d, name);
    a.None? || a.value.value.BooleanValue?
  }

  function GetRelationshipMeta(field: FieldDefinition, interfaceField: Option<FieldDefinition>)
    : (r: Result<Option<RelationshipMeta>, MetaError>)
    // no directive on either field: no metadata, and no error
    ensures r == Ok(None) <==> ChosenDirective(field, interfaceField).None?
    // the direction is validated first, in three ordered steps
    ensures ChosenDirective(field, interfaceField).Some? ==>
      var d := ChosenDirective(field, interfaceField).value;
      && (Arg(d, "direction").None? ==> r == Err(DirectionRequired))
      && (DirectionNotAnEnum(d) ==> r == Err(DirectionNotEnum))
      && (DirectionOutOfRange(d) ==> r == Err(DirectionInvalid))
    // the type only once the direction is valid
    ensures ChosenDirective(field, interfaceField).Some? ==>
      var d := ChosenDirective(field, interfaceField).value;
      HasValidDirection(d) ==>
        && (Arg(d, "type").None? ==> r == Err(TypeRequired))
        && (Arg(d, "type").Some? && !HasStringType(d) ==> r == Err(TypeNotString))
    // then the optional arguments, properties before allowMultiple
    ensures ChosenDirective(field, interfaceField).Some? ==>
      var d := ChosenDirective(field, interfaceField).value;
      HasValidDirection(d) && HasStringType(d) ==>
        && (!OptionalStringOk(d, "properties") ==> r == Err(PropertiesNotString))
        && (OptionalStringOk(d, "properties") && !OptionalBooleanOk(d, "allowMultiple") ==> r == Err(AllowMultipleNotBoolean))
    // a directive passing every check always yields metadata
    ensures ChosenDirective(field, interfaceField).Some? ==>
      var d := ChosenDirective(field, interfaceField).value;
      HasValidDirection(d) && HasStringType(d) && OptionalStringOk(d, "properties") && OptionalBooleanOk(d, "allowMultiple") ==>
        r.Ok? && r.value.Some?
    // success carries exactly the literals of the directive
    ensures r.Ok? && r.value.Some? ==>
      var d := ChosenDirective(field, interfaceField).value;
      var m := r.value.value;
      && HasValidDirection(d) && HasStringType(d)
      && OptionalStringOk(d, "properties") && OptionalBooleanOk(d, "allowMultiple")
      && DirectionName(m.direction) == Arg(d, "direction").value.value.name
      && m.relType == Arg(d, "type").value.value.text
      && (m.properties.Some? <==> Arg(d, "properties").Some?)
      && (m.properties.Some? ==> m.properties.value == Arg(d, "properties").value.value.text)
      && (m.allowMultiple.Some? <==> Arg(d, "allowMultiple").Some?)
      && (m.allowMultiple.Some? ==> m.allowMultiple.value == Arg(d, "allowMultiple").value.value.flag)
  {
    var chosen := ChosenDirective(field, interfaceField);
    if chosen.None? then Ok(None)
    else
      var d := chosen.value;
      var directionArg := Arg(d, "direction");
      if directionArg.None? then Err(DirectionRequired)
      else if !directionArg.value.value.EnumValue? then Err(DirectionNotEnum)
      else if ParseDirection(directionArg.value.value.name).None? then Err(DirectionInvalid)
      else
        var typeArg := Arg(d, "type");
        if typeArg.None? then Err(TypeRequired)
        else if !typeArg.value.value.StringValue? then Err(TypeNotString)
        else
          var propertiesArg := Arg(d, "properties");
          if propertiesArg.Some? && !propertiesArg.value.value.StringValue? then Err(PropertiesNotString)
          else
            var allowMultipleArg := Arg(d, "allowMultiple");
            if allowMultipleArg.Some? && !allowMultipleArg.value.value.BooleanValue? then Err(AllowMultipleNotBoolean)
            else
              Ok(Some(RelationshipMeta(
                ParseDirection(directionArg.value.value.name).value,
                typeArg.value.value.text,
                if propertiesArg.Some? then Some(propertiesArg.value.value.text) else None,
                if allowMultipleArg.Some? then Some(allowMultipleArg.value.value.flag) else None)))
  }

  /** The directive a schema author writes for the given metadata. */
  function ToDirective(m: RelationshipMeta): Directive {
    Directive(RelationshipDirectiveName, Some(
      [Argument("direction", EnumValue(DirectionName(m.direction))),
       Argument("type", StringValue(m.relType))]
      + (if m.properties.Some? then [Argument("properties", StringValue(m.properties.value))] else [])
      + (if m.allowMultiple.Some? then [Argument("allowMultiple", BooleanValue(m.allowMultiple.value))] else [])))
  }

  /** Reading back the directive written for any metadata gives that
      metadata. */
  lemma MetaRoundTrip(m: RelationshipMeta, interfaceField: Option<FieldDefinition>)
    ensures GetRelationshipMeta(FieldDefinition(Some([ToDirective(m)])), interfaceField) == Ok(Some(m))
  {
    var d := ToDirective(m);
    var field := FieldDefinition(Some([d]));
    assert DirectiveOf(field) == Some(d);
    assert ChosenDirective(field, interfaceField) == Some(d);
    ToDirectiveArguments(m);
    assert ParseDirection(DirectionName(m.direction)) == Some(m.direction);
  }

  /** Each argument of the written directive is found under its name, and
      the optional ones exactly when the metadata has them. */
  lemma ToDirectiveArguments(m: RelationshipMeta)
    ensures Arg(ToDirective(m), "direction") == Some(Argument("direction", EnumValue(DirectionName(m.direction))))
    ensures Arg(ToDirective(m), "type") == Some(Argument("type", StringValue(m.relType)))
    ensures m.properties.None? ==> Arg(ToDirective(m), "properties").None?
    ensures m.properties.Some? ==> Arg(ToDirective(m), "properties") == Some(Argument("properties", StringValue(m.properties.value)))
    ensures m.allowMultiple.None? ==> Arg(ToDirective(m), "allowMultiple").None?
    ensures m.allowMultiple.Some? ==> Arg(ToDirective(m), "allowMultiple") == Some(Argument("allowMultiple", BooleanValue(m.allowMultiple.value)))
  {
    var d := ToDirective(m);
    var args := d.arguments.value;
    assert args[0].name == "direction" && args[1].name == "type";
    ArgAt(d, "direction", 0);
    ArgAt(d, "type", 1);
    PropertiesArgument(m);
    AllowMultipleArgument(m);
  }

  lemma PropertiesArgument(m: RelationshipMeta)
    ensures m.properties.None? ==> Arg(ToDirective(m), "properties").None?
    ensures m.properties.Some? ==> Arg(ToDirective(m), "properties") == Some(Argument("properties", StringValue(m.properties.value)))
  {
    var d := ToDirective(m);
    var args := d.arguments.value;
    if m.properties.Some? {
      assert args[2].name == "properties";
      ArgAt(d, "properties", 2);
    } else {
      assert forall j :: 0 <= j < |args| ==> args[j].name != "properties";
    }
  }

  lemma AllowMultipleArgument(m: RelationshipMeta)
    ensures m.allowMultiple.None? ==> Arg(ToDirective(m), "allowMultiple").None?
    ensures m.allowMultiple.Some? ==> Arg(ToDirective(m), "allowMultiple") == Some(Argument("allowMultiple", BooleanValue(m.allowMultiple.value)))
  {
    var d := ToDirective(m);
    var args := d.arguments.value;
    var k := if m.properties.Some? then 3 else 2;
    if m.allowMultiple.Some? {
      assert args[k].name == "allowMultiple";
      ArgAt(d, "allowMultiple", k);
    } else {
      assert forall j :: 0 <= j < |args| ==> args[j].name != "allowMultiple";
    }
  }

  /** The argument at the first index carrying a name is the one found. */
  lemma ArgAt(d: Directive, name: string, k: nat)
    requires d.arguments.Some? && k < |d.arguments.value| && d.arguments.value[k].name == name
    requires forall j :: 0 <= j < k ==> d.arguments.value[j].name != name
    ensures Arg(d, name) == Some(d.arguments.value[k])
  {
    FindFirst(d.arguments.value, (a: Argument) => a.name == name, k);
  }

  /** A directive on the field itself makes the interface field irrelevant. */
  lemma FieldDirectiveTakesPrecedence(field: FieldDefinition, i1: Option<FieldDefinition>, i2: Option<FieldDefinition>)
    requires DirectiveOf(field).Some?
    ensures GetRelationshipMeta(field, i1) == GetRelationshipMeta(field, i2)
  {
  }
}
