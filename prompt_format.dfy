/**
 * The part of Python's `str.format` the prompt templates rely on (the
 * default f-string template format of langchain's `PromptTemplate`):
 * `{{` and `}}` stand for one brace, `{name}` for the value of `name`.
 */
module PromptFormat {
  import opened Wrappers
  import opened Text

  /** The ways `str.format` refuses a template. */
  datatype FormatError =
    | MissingField(name: string)  // `KeyError`: no value for the field
    | SingleClose                 // `}` that is not part of `}}`
    | SingleOpen                  // `{` at the very end
    | UnclosedField               // `{` whose field never ends
    | BraceInField                // `{` inside a field name
    | PositionalField             // `{}` or `{0}`: no positional values are given

  /** How many characters of `t` there are before its first brace. */
  function FieldEnd(t: string): (k: nat)
    ensures k <= |t|
    ensures forall i :: 0 <= i < k ==> t[i] != '{' && t[i] != '}'
    ensures k < |t| ==> t[k] == '{' || t[k] == '}'
    decreases |t|
  {
    if t == [] || t[0] == '{' || t[0] == '}' then 0 else 1 + FieldEnd(t[1..])
  }

  /** `p` in front of a successful result; an error stays as it is. */
  function Prepend(p: string, r: Result<string, FormatError>): Result<string, FormatError> {
    match r
    case Ok(x) => Ok(p + x)
    case Err(e) => Err(e)
  }

  /** `t.format(**vars)`, read left to right; the first problem met is the
      error reported. */
  function Format(t: string, vars: map<string, string>): Result<string, FormatError>
    decreases |t|
  {
    if t == [] then Ok([])
    else if t[0] == '{' then
      if |t| >= 2 && t[1] == '{' then Prepend("{", Format(t[2..], vars))
      else if |t| == 1 then Err(SingleOpen)
      else
        var k := FieldEnd(t[1..]);
        if k == |t| - 1 then Err(UnclosedField)
        else if t[k + 1] == '{' then Err(BraceInField)
        else
          var name := t[1..k + 1];
          if IsIndex(name) then Err(PositionalField)
          else if name !in vars then Err(MissingField(name))
          else Prepend(vars[name], Format(t[k + 2..], vars))
    else if t[0] == '}' then
      if |t| >= 2 && t[1] == '}' then Prepend("}", Format(t[2..], vars))
      else Err(SingleClose)
    else Prepend([t[0]], Format(t[1..], vars))
  }

  /** A field name that `str.format` reads as a position. */
  predicate IsIndex(name: string) {
    forall i :: 0 <= i < |name| ==> IsDigit(name[i])
  }

  predicate BraceFree(s: string) {
    '{' !in s && '}' !in s
  }

  lemma BraceFreeAppend(a: string, b: string)
    requires BraceFree(a) && BraceFree(b)
    ensures BraceFree(a + b)
  {
  }

  lemma PrependPrepend(a: string, b: string, r: Result<string, FormatError>)
    ensures Prepend(a, Prepend(b, r)) == Prepend(a + b, r)
  {
    if r.Ok? {
      assert a + (b + r.value) == (a + b) + r.value;
    }
  }

  /** Text without braces is copied as it is. */
  lemma {:induction false} FormatLiteral(a: string, b: string, vars: map<string, string>)
    requires BraceFree(a)
    ensures Format(a + b, vars) == Prepend(a, Format(b, vars))
    decreases |a|
  {
    if a == [] {
      assert a + b == b;
      assert Prepend([], Format(b, vars)) == Format(b, vars) by {
        if Format(b, vars).Ok? {
          assert [] + Format(b, vars).value == Format(b, vars).value;
        }
      }
    } else {
      assert a[0] in a;
      assert (a + b)[0] == a[0] && (a + b)[1..] == a[1..] + b;
      assert BraceFree(a[1..]) by {
        assert forall i :: 0 <= i < |a| - 1 ==> a[1..][i] == a[i + 1];
      }
      FormatLiteral(a[1..], b, vars);
      PrependPrepend([a[0]], a[1..], Format(b, vars));
      assert [a[0]] + a[1..] == a;
    }
  }

  /** A brace-free template formats to itself, whatever the values. */
  lemma FormatBraceFree(a: string, vars: map<string, string>)
    requires BraceFree(a)
    ensures Format(a, vars) == Ok(a)
  {
    FormatLiteral(a, [], vars);
    assert a + [] == a;
  }

  /** `{name}` is replaced by the value of `name`. */
  lemma FormatField(name: string, b: string, vars: map<string, string>)
    requires BraceFree(name) && !IsIndex(name) && name in vars
    ensures Format("{" + name + "}" + b, vars) == Prepend(vars[name], Format(b, vars))
  {
    var t := "{" + name + "}" + b;
    FieldEndOf(name, "}" + b);
    assert t[1..] == name + ("}" + b);
    assert t[1..|name| + 1] == name && t[|name| + 1] == '}' && t[|name| + 2..] == b;
  }

  /** A field with no value is a `KeyError`. */
  lemma FormatFieldMissing(name: string, b: string, vars: map<string, string>)
    requires BraceFree(name) && !IsIndex(name) && name !in vars
    ensures Format("{" + name + "}" + b, vars) == Err(MissingField(name))
  {
    var t := "{" + name + "}" + b;
    FieldEndOf(name, "}" + b);
    assert t[1..] == name + ("}" + b);
    assert t[1..|name| + 1] == name && t[|name| + 1] == '}';
  }

  lemma {:induction false} FieldEndOf(name: string, b: string)
    requires BraceFree(name) && b != [] && (b[0] == '{' || b[0] == '}')
    ensures FieldEnd(name + b) == |name|
    decreases |name|
  {
    if name == [] {
      assert name + b == b;
    } else {
      assert name[0] in name;
      assert (name + b)[1..] == name[1..] + b;
      assert BraceFree(name[1..]) by {
        assert forall i :: 0 <= i < |name| - 1 ==> name[1..][i] == name[i + 1];
      }
      FieldEndOf(name[1..], b);
    }
  }

  /** `{{` and `}}` stand for one brace. */
  lemma FormatDoubled(c: char, b: string, vars: map<string, string>)
    requires c == '{' || c == '}'
    ensures Format([c, c] + b, vars) == Prepend([c], Format(b, vars))
  {
    assert ([c, c] + b)[2..] == b;
  }

  /** The field scan stops inside a prefix that has a brace. */
  lemma {:induction false} FieldEndPrefix(a: string, b: string)
    requires FieldEnd(a) < |a|
    ensures FieldEnd(a + b) == FieldEnd(a)
    decreases |a|
  {
    if a[0] != '{' && a[0] != '}' {
      assert (a + b)[1..] == a[1..] + b;
      FieldEndPrefix(a[1..], b);
    }
  }

  /** A template that formats is a complete run of pieces: what follows it
      is formatted on its own. */
  lemma {:induction false} FormatConcat(a: string, b: string, vars: map<string, string>)
    requires Format(a, vars).Ok?
    ensures Format(a + b, vars) == Prepend(Format(a, vars).value, Format(b, vars))
    decreases |a|
  {
    var t := a + b;
    if a == [] {
      assert t == b;
      assert Format(a, vars).value == [];
      assert Prepend([], Format(b, vars)) == Format(b, vars) by {
        if Format(b, vars).Ok? {
          assert [] + Format(b, vars).value == Format(b, vars).value;
        }
      }
    } else if a[0] == '{' {
      assert |a| >= 2;
      if a[1] == '{' {
        assert t[0] == '{' && t[1] == '{' && t[2..] == a[2..] + b;
        FormatConcat(a[2..], b, vars);
        PrependPrepend("{", Format(a[2..], vars).value, Format(b, vars));
      } else {
        var k := FieldEnd(a[1..]);
        assert k < |a| - 1 && a[k + 1] == '}';
        assert t[1..] == a[1..] + b;
        FieldEndPrefix(a[1..], b);
        assert t[k + 1] == a[k + 1] && t[1..k + 1] == a[1..k + 1];
        assert t[k + 2..] == a[k + 2..] + b;
        var name := a[1..k + 1];
        FormatConcat(a[k + 2..], b, vars);
        PrependPrepend(vars[name], Format(a[k + 2..], vars).value, Format(b, vars));
      }
    } else if a[0] == '}' {
      assert |a| >= 2 && a[1] == '}';
      assert t[0] == '}' && t[1] == '}' && t[2..] == a[2..] + b;
      FormatConcat(a[2..], b, vars);
      PrependPrepend("}", Format(a[2..], vars).value, Format(b, vars));
    } else {
      assert t[0] == a[0] && t[1..] == a[1..] + b;
      FormatConcat(a[1..], b, vars);
      PrependPrepend([a[0]], Format(a[1..], vars).value, Format(b, vars));
    }
  }

  /** Two templates that format, one after the other. */
  lemma FormatAppendOk(a: string, b: string, vars: map<string, string>)
    requires Format(a, vars).Ok? && Format(b, vars).Ok?
    ensures Format(a + b, vars) == Ok(Format(a, vars).value + Format(b, vars).value)
  {
    FormatConcat(a, b, vars);
  }


  /** A template with one field between brace-free texts. */
  lemma FormatOneField(pre: string, name: string, post: string, vars: map<string, string>)
    requires BraceFree(pre) && BraceFree(name) && BraceFree(post) && !IsIndex(name)
    ensures name in vars ==> Format(pre + "{" + name + "}" + post, vars) == Ok(pre + vars[name] + post)
    ensures name !in vars ==> Format(pre + "{" + name + "}" + post, vars) == Err(MissingField(name))
  {
    assert pre + "{" + name + "}" + post == pre + ("{" + name + "}" + post);
    FormatLiteral(pre, "{" + name + "}" + post, vars);
    if name in vars {
      FormatField(name, post, vars);
      FormatBraceFree(post, vars);
      assert pre + (vars[name] + post) == pre + vars[name] + post;
    } else {
      FormatFieldMissing(name, post, vars);
    }
  }

  /** A template with one doubled pair of braces around brace-free text. */
  lemma FormatBracedLiteral(pre: string, inner: string, vars: map<string, string>)
    requires BraceFree(pre) && BraceFree(inner)
    ensures Format(pre + "{{" + inner + "}}", vars) == Ok(pre + "{" + inner + "}")
  {
    assert pre + "{{" + inner + "}}" == pre + (['{', '{'] + (inner + (['}', '}'] + [])));
    FormatLiteral(pre, ['{', '{'] + (inner + (['}', '}'] + [])), vars);
    FormatDoubled('{', inner + (['}', '}'] + []), vars);
    FormatLiteral(inner, ['}', '}'] + [], vars);
    FormatDoubled('}', [], vars);
    assert pre + ("{" + (inner + ("}" + []))) == pre + "{" + inner + "}";
  }


  /** Three templates that format, one after the other. */
  lemma FormatThreeOk(a: string, b: string, c: string, vars: map<string, string>)
    requires Format(a, vars).Ok? && Format(b, vars).Ok? && Format(c, vars).Ok?
    ensures Format(a + b + c, vars) == Ok(Format(a, vars).value + Format(b, vars).value + Format(c, vars).value)
  {
    FormatAppendOk(a, b, vars);
    FormatAppendOk(a + b, c, vars);
  }

  /** A field with no value, after a part that formats, is a `KeyError`
      whatever follows it. */
  lemma FormatMissingAfter(a: string, pre: string, name: string, post: string, c: string, vars: map<string, string>)
    requires Format(a, vars).Ok? && BraceFree(pre) && BraceFree(name) && !IsIndex(name) && name !in vars
    ensures Format(a + (pre + "{" + name + "}" + post) + c, vars) == Err(MissingField(name))
  {
    var field := "{" + name + "}" + (post + c);
    assert a + (pre + "{" + name + "}" + post) + c == a + (pre + field);
    FormatConcat(a, pre + field, vars);
    FormatLiteral(pre, field, vars);
    FormatFieldMissing(name, post + c, vars);
  }

}
