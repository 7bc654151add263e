/** Two helpers of the Objective-C generator: the deprecation attribute
    placed on generated declarations, and the test for proto3 enum
    semantics. Descriptors are reduced to the few fields these helpers read. */
module ObjCHelpers {
  import opened Strings

  /** The syntax a .proto file declares; only proto3 matters here. */
  datatype Syntax = Unknown | Proto2 | Proto3

  /** A file descriptor: its name, its syntax and its `deprecated` option. */
  datatype FileDescriptor = FileDescriptor(name: string, syntax: Syntax, deprecated: bool)

  /** A message, enum, field or enum value descriptor: its full name, its own
      `deprecated` option and the file it was declared in. */
  datatype Descriptor = Descriptor(fullName: string, deprecated: bool, file: FileDescriptor)

  /** Unknown enum values are preserved exactly for proto3 files. */
  function HasPreservingUnknownEnumSemantics(file: FileDescriptor): bool
  {
    file.syntax == Proto3
  }

  const AttributeOpen: string := "GPB_DEPRECATED_MSG(\""
  const AttributeClose: string := "\")"

  /** The parts of a generated attribute: the optional leading space, the
      message inside the macro, and the optional trailing newline. */
  datatype Attribute = Attribute(preSpace: bool, message: string, postNewline: bool)

  /** The attribute text for a message. */
  function WrapAttribute(a: Attribute): string
  {
    (if a.preSpace then " " else "") + AttributeOpen + a.message + AttributeClose
      + (if a.postNewline then "\n" else "")
  }

  /** Splits off one leading space, if there is one. */
  function SplitPreSpace(s: string): (bool, string)
  {
    if |s| > 0 && s[0] == ' ' then (true, s[1..]) else (false, s)
  }

  /** Splits off one trailing newline, if there is one. */
  function SplitPostNewline(s: string): (bool, string)
  {
    if |s| > 0 && s[|s| - 1] == '\n' then (true, s[..|s| - 1]) else (false, s)
  }

  /** The message inside the deprecation macro, if `s` is the macro. */
  function MacroMessage(s: string): Option<string>
  {
    if |s| >= |AttributeOpen| + |AttributeClose|
       && s[..|AttributeOpen|] == AttributeOpen
       && s[|s| - |AttributeClose|..] == AttributeClose
    then Some(s[|AttributeOpen|..|s| - |AttributeClose|])
    else None
  }

  /** Reads an attribute text back into its parts; the partner of
      WrapAttribute. */
  function ParseAttribute(s: string): Option<Attribute>
  {
    var (pre, s1) := SplitPreSpace(s);
    var (post, s2) := SplitPostNewline(s1);
    match MacroMessage(s2)
    case None => None
    case Some(m) => Some(Attribute(pre, m, post))
  }

  lemma {:induction false} MacroRoundTrip(m: string)
    ensures MacroMessage(AttributeOpen + m + AttributeClose) == Some(m)
  {
    var core := AttributeOpen + m + AttributeClose;
    assert core[..|AttributeOpen|] == AttributeOpen;
    assert core[|core| - |AttributeClose|..] == AttributeClose;
    assert core[|AttributeOpen|..|core| - |AttributeClose|] == m;
  }

  lemma {:induction false} MacroSound(s: string, m: string)
    requires MacroMessage(s) == Some(m)
    ensures s == AttributeOpen + m + AttributeClose
  {
    var i := |AttributeOpen|;
    var j := |s| - |AttributeClose|;
    assert s == s[..i] + s[i..j] + s[j..];
  }

  /** Every attribute text reads back as the parts it was built from, so
      the leading space, the message and the trailing newline are each
      recoverable from the generated text. */
  lemma {:induction false} AttributeRoundTrip(a: Attribute)
    ensures ParseAttribute(WrapAttribute(a)) == Some(a)
  {
    var core := AttributeOpen + a.message + AttributeClose;
    var s1 := core + (if a.postNewline then "\n" else "");
    var s := (if a.preSpace then " " else "") + s1;
    assert WrapAttribute(a) == s;
    assert s1[0] == 'G';
    if a.preSpace { assert s[1..] == s1; } else { assert s == s1; }
    assert SplitPreSpace(s) == (a.preSpace, s1);
    assert core[|core| - 1] == ')';
    if a.postNewline { assert s1[..|s1| - 1] == core; } else { assert s1 == core; }
    assert SplitPostNewline(s1) == (a.postNewline, core);
    MacroRoundTrip(a.message);
  }

  /** Conversely, a text that reads as an attribute is exactly the text
      built from its parts, so the two functions are mutually inverse and
      the parts determine the attribute text. */
  lemma {:induction false} ParseAttributeSound(s: string, a: Attribute)
    requires ParseAttribute(s) == Some(a)
    ensures s == WrapAttribute(a)
  {
    var (pre, s1) := SplitPreSpace(s);
    var (post, s2) := SplitPostNewline(s1);
    assert MacroMessage(s2) == Some(a.message) && pre == a.preSpace && post == a.postNewline;
    MacroSound(s2, a.message);
    PostNewlineSound(s1);
    PreSpaceSound(s);
    WrapGrouping(a);
  }

  /** The attribute text as the leading space, then the macro, then the
      trailing newline. */
  lemma {:induction false} WrapGrouping(a: Attribute)
    ensures WrapAttribute(a)
         == (if a.preSpace then " " else "")
            + ((AttributeOpen + a.message + AttributeClose) + (if a.postNewline then "\n" else ""))
  {
    var p := if a.preSpace then " " else "";
    var n := if a.postNewline then "\n" else "";
    var core := AttributeOpen + a.message + AttributeClose;
    assert p + AttributeOpen + a.message + AttributeClose == p + core;
    assert p + core + n == p + (core + n);
  }

  lemma {:induction false} PreSpaceSound(s: string)
    ensures s == (if SplitPreSpace(s).0 then " " else "") + SplitPreSpace(s).1
  {
    if |s| > 0 && s[0] == ' ' { assert s == [s[0]] + s[1..]; }
  }

  lemma {:induction false} PostNewlineSound(s: string)
    ensures s == SplitPostNewline(s).1 + (if SplitPostNewline(s).0 then "\n" else "")
  {
    if |s| > 0 && s[|s| - 1] == '\n' { assert s == s[..|s| - 1] + [s[|s| - 1]]; }
  }

  /** The message for a deprecated declaration, if it is deprecated. The
      descriptor's own option wins; the file's option is read only when a
      file is passed and the descriptor itself is not deprecated. Both
      messages name the file the descriptor was declared in. */
  function DeprecationMessage(descriptor: Descriptor, file: Option<FileDescriptor>): Option<string>
  {
    var isFileLevelDeprecation := !descriptor.deprecated && file.Some? && file.value.deprecated;
    var isDeprecated := descriptor.deprecated || isFileLevelDeprecation;
    if !isDeprecated then None
    else if isFileLevelDeprecation then Some(descriptor.file.name + " is deprecated.")
    else Some(descriptor.fullName + " is deprecated (see " + descriptor.file.name + ").")
  }

  /** The attribute to place on a generated declaration, or the empty string
      when neither the declaration nor the passed file is deprecated. A
      non-empty result is the deprecation macro around the message chosen by
      the descriptor-first rule, with a leading space iff `preSpace` and a
      trailing newline iff `postNewline`. */
  function GetOptionalDeprecatedAttribute(descriptor: Descriptor, file: Option<FileDescriptor>,
                                          preSpace: bool, postNewline: bool): (r: string)
    ensures r == [] <==> !descriptor.deprecated && (file.None? || !file.value.deprecated)
    ensures descriptor.deprecated ==>
              ParseAttribute(r) == Some(Attribute(preSpace,
                descriptor.fullName + " is deprecated (see " + descriptor.file.name + ").", postNewline))
    ensures !descriptor.deprecated && file.Some? && file.value.deprecated ==>
              ParseAttribute(r) == Some(Attribute(preSpace, descriptor.file.name + " is deprecated.", postNewline))
  {
    match DeprecationMessage(descriptor, file)
    case None => []
    case Some(message) =>
      var a := Attribute(preSpace, message, postNewline);
      AttributeRoundTrip(a);
      assert |WrapAttribute(a)| >= |AttributeOpen|;
      WrapAttribute(a)
  }

  /** A deprecated descriptor gets the same attribute whatever file is
      passed: the file's option is not consulted. */
  lemma DescriptorDeprecationWins(descriptor: Descriptor, file: Option<FileDescriptor>,
                                  preSpace: bool, postNewline: bool)
    requires descriptor.deprecated
    ensures GetOptionalDeprecatedAttribute(descriptor, file, preSpace, postNewline)
         == GetOptionalDeprecatedAttribute(descriptor, None, preSpace, postNewline)
  {
  }

  /** Without a file, only the descriptor's own option counts. */
  lemma NoFileNoFileLevelDeprecation(descriptor: Descriptor, preSpace: bool, postNewline: bool)
    ensures GetOptionalDeprecatedAttribute(descriptor, None, preSpace, postNewline) == []
        <==> !descriptor.deprecated
  {
  }
}
