/**
 * The playground's source builder: the file handed to the in-browser
 * sandbox is a fixed header, the hook's implementation, and the code of its
 * first example.
 */
module HookPlayground {
  import opened Catalogue

  /** The two import lines and the comment that open every generated file. */
  const Header: string :=
    "import React from 'react';\nimport {useState, useEffect, useRef, useCallback} from 'react';\n// Hook Definition\n"

  /** The comment line that introduces the usage example. */
  const UsageComment: string := "// Example Usage\n"

  /** The blank line and comment between the hook and its usage. */
  const UsageHeader: string := "\n\n" + UsageComment

  /** `hook.examples?.[0]?.code || ""`: the first example's code, or nothing. */
  function FirstExampleCode(hook: Hook): string {
    if |hook.examples| > 0 then hook.examples[0].code else ""
  }

  /** The contents of `/App.tsx` in the sandbox. */
  function GenerateSandpackCode(hook: Hook): string {
    Header + hook.code + UsageHeader + FirstExampleCode(hook) + "\n"
  }

  /** Where the hook's code starts in the generated file. */
  function CodeStart(): nat {
    |Header|
  }

  /** Where the usage slot starts in a file built around `code`. */
  function UsageStart(code: string): nat {
    |Header| + |code| + |UsageHeader|
  }

  /** The three parts of a concatenation can be cut back out of it. */
  lemma Slices(a: string, b: string, c: string)
    ensures (a + b + c)[..|a|] == a
    ensures (a + b + c)[|a|..|a| + |b|] == b
    ensures (a + b + c)[|a| + |b|..] == c
  {
  }

  /**
   * The generated file opens with the fixed header, holds the hook's code
   * verbatim right after it, then the usage comment, then the first
   * example's code, and ends with a line break.
   */
  lemma Layout(hook: Hook)
    ensures var out := GenerateSandpackCode(hook);
      && |out| == UsageStart(hook.code) + |FirstExampleCode(hook)| + 1
      && out[..|Header|] == Header
      && out[CodeStart()..CodeStart() + |hook.code|] == hook.code
      && out[CodeStart() + |hook.code|..UsageStart(hook.code)] == UsageHeader
      && out[UsageStart(hook.code)..|out| - 1] == FirstExampleCode(hook)
      && out[|out| - 1] == '\n'
  {
    var out := GenerateSandpackCode(hook);
    var usage := FirstExampleCode(hook);
    var front := Header + hook.code + UsageHeader;
    assert out == front + usage + "\n";
    Slices(front, usage, "\n");
    Slices(Header, hook.code, UsageHeader);
    assert out[..|front|] == front;
    assert out[..|Header|] == front[..|Header|];
    assert out[CodeStart()..CodeStart() + |hook.code|] == front[|Header|..|Header| + |hook.code|];
    assert out[CodeStart() + |hook.code|..UsageStart(hook.code)] == front[|Header| + |hook.code|..];
  }

  /**
   * The hook's code and first example can be read back from the generated
   * file once the code's length is known: two hooks whose code has the same
   * length give the same file exactly when their code and first example
   * agree.
   */
  lemma SameFileIffSameInputs(a: Hook, b: Hook)
    requires |a.code| == |b.code|
    ensures GenerateSandpackCode(a) == GenerateSandpackCode(b) <==>
      a.code == b.code && FirstExampleCode(a) == FirstExampleCode(b)
  {
    Layout(a);
    Layout(b);
  }

  /**
   * Only the hook's code and its first example's code reach the file; its
   * name, category, description, parameters and other fields do not.
   */
  lemma OnlyCodeAndFirstExampleMatter(a: Hook, b: Hook)
    requires a.code == b.code
    requires |a.examples| > 0 <==> |b.examples| > 0
    requires |a.examples| > 0 ==> a.examples[0].code == b.examples[0].code
    ensures GenerateSandpackCode(a) == GenerateSandpackCode(b)
  {
  }

  /** Adding an example after the first, or changing one, leaves the file as it is. */
  lemma LaterExamplesIgnored(hook: Hook, later: seq<Example>)
    requires |hook.examples| > 0
    ensures GenerateSandpackCode(hook.(examples := hook.examples[..1] + later)) == GenerateSandpackCode(hook)
  {
  }

  /**
   * With no examples, or a first example whose code is empty, the usage slot
   * is empty and the file ends with the "// Example Usage" line and a blank
   * line.
   */
  lemma EmptyUsageSlot(hook: Hook)
    requires |hook.examples| == 0 || hook.examples[0].code == ""
    ensures var out := GenerateSandpackCode(hook);
      |out| > |UsageComment| && out[|out| - |UsageComment| - 1..] == UsageComment + "\n"
  {
    var out := GenerateSandpackCode(hook);
    var front := Header + hook.code + "\n\n";
    assert out == front + (UsageComment + "\n");
    assert (front + (UsageComment + "\n"))[|front|..] == UsageComment + "\n";
  }
}
