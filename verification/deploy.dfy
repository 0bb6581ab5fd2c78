/**
 * The CLI's `deploy` command (packages/cli/src/cli/commands/deploy.ts): which
 * hosting providers get a CI workflow, what each workflow file is called and
 * holds, which files are written, and the closing "what next" note. The
 * file system is reduced to the set of workflow file names that already
 * exist and the set of those the user agrees to overwrite; the provider
 * prompt's answer is a parameter.
 */
module Deploy {
  import opened Wrappers
  import opened Text

  const GhPages := "ghpages"
  const CfPages := "cfpages"
  const Vercel := "vercel"
  const Netlify := "netlify"

  /** The order in which the command-line flags are read. */
  const FlagOrder: seq<string> := [GhPages, CfPages, Vercel, Netlify]

  /** The order of the provider sections in the closing note. */
  const WhatNextOrder: seq<string> := [GhPages, CfPages, Netlify, Vercel]

  /** The four provider flags; a flag not given is false. */
  datatype DeployOptions = DeployOptions(cfpages: bool, ghpages: bool, vercel: bool, netlify: bool)

  /** The providers whose flag is set. */
  function Flagged(options: DeployOptions): set<string> {
    (if options.ghpages then {GhPages} else {}) + (if options.cfpages then {CfPages} else {})
    + (if options.vercel then {Vercel} else {}) + (if options.netlify then {Netlify} else {})
  }

  predicate Distinct<X(==)>(xs: seq<X>) {
    forall i, j :: 0 <= i < j < |xs| ==> xs[i] != xs[j]
  }

  /** Position of `x` in `order`. */
  function IndexOf<X(==)>(order: seq<X>, x: X): (n: nat)
    requires x in order
    ensures n < |order| && order[n] == x
  {
    if order[0] == x then 0 else 1 + IndexOf(order[1..], x)
  }

  /** The members of `order` that are in `chosen`, in the order of `order`. */
  function Pick<X>(order: seq<X>, chosen: set<X>): (r: seq<X>)
    ensures |r| <= |order|
    ensures forall i :: 0 <= i < |r| ==> r[i] in order && r[i] in chosen
  {
    if |order| == 0 then []
    else if order[0] in chosen then [order[0]] + Pick(order[1..], chosen)
    else Pick(order[1..], chosen)
  }

  /** What is picked is exactly what is both in the order and chosen. */
  lemma {:induction false} PickMembers<X>(order: seq<X>, chosen: set<X>)
    ensures forall x :: x in Pick(order, chosen) <==> x in order && x in chosen
  {
    if |order| > 0 {
      PickMembers(order[1..], chosen);
      assert order == [order[0]] + order[1..];
    }
  }

  /** Past a different first element, a position is one more than in the rest. */
  lemma IndexOfTail<X>(order: seq<X>, x: X)
    requires |order| > 0 && x in order[1..] && order[0] != x
    ensures IndexOf(order, x) == 1 + IndexOf(order[1..], x)
  {
  }

  /** Two elements of the rest keep their relative order once the first element is put back. */
  lemma TailOrder<X>(order: seq<X>, x: X, y: X)
    requires |order| > 0 && x in order[1..] && y in order[1..] && order[0] != x && order[0] != y
    requires IndexOf(order[1..], x) < IndexOf(order[1..], y)
    ensures IndexOf(order, x) < IndexOf(order, y)
  {
    IndexOfTail(order, x);
    IndexOfTail(order, y);
  }

  /** The first element comes before every element of the rest. */
  lemma HeadFirst<X>(order: seq<X>, y: X)
    requires |order| > 0 && y in order[1..] && order[0] != y
    ensures IndexOf(order, order[0]) < IndexOf(order, y)
  {
    IndexOfTail(order, y);
  }

  /** A list without repeats: its rest has none either, and does not hold its first element. */
  lemma DistinctTail<X>(order: seq<X>)
    requires |order| > 0 && Distinct(order)
    ensures Distinct(order[1..]) && order[0] !in order[1..]
  {
    var tail := order[1..];
    forall i, j | 0 <= i < j < |tail| ensures tail[i] != tail[j] {
      assert tail[i] == order[i + 1] && tail[j] == order[j + 1];
    }
    forall k | 0 <= k < |tail| ensures tail[k] != order[0] {
      assert tail[k] == order[k + 1];
    }
  }

  /** Picking from a list without repeats keeps its order and repeats nothing. */
  lemma {:induction false} PickInOrder<X(!new)>(order: seq<X>, chosen: set<X>)
    requires Distinct(order)
    ensures var r := Pick(order, chosen);
      Distinct(r) && forall i, j :: 0 <= i < j < |r| ==> IndexOf(order, r[i]) < IndexOf(order, r[j])
  {
    if |order| > 0 {
      var tail := order[1..];
      DistinctTail(order);
      PickInOrder(tail, chosen);
      var t := Pick(tail, chosen);
      var r := Pick(order, chosen);
      if order[0] in chosen {
        assert r == [order[0]] + t;
        forall i, j | 0 <= i < j < |r| ensures IndexOf(order, r[i]) < IndexOf(order, r[j]) && r[i] != r[j] {
          assert r[j] == t[j - 1];
          if i > 0 {
            assert r[i] == t[i - 1];
            TailOrder(order, r[i], r[j]);
          } else {
            HeadFirst(order, r[j]);
          }
        }
      } else {
        assert r == t;
        forall i, j | 0 <= i < j < |r| ensures IndexOf(order, r[i]) < IndexOf(order, r[j]) {
          TailOrder(order, r[i], r[j]);
        }
      }
    }
  }

  /** Picking from a list with a first element: that element when chosen, then the rest. */
  lemma PickCons<X>(x: X, rest: seq<X>, chosen: set<X>)
    ensures Pick([x] + rest, chosen) == (if x in chosen then [x] else []) + Pick(rest, chosen)
  {
    assert ([x] + rest)[1..] == rest;
  }

  lemma ConsDisplays<X>(a: X, b: X, c: X, d: X)
    ensures [a] + [b, c, d] == [a, b, c, d] && [b] + [c, d] == [b, c, d]
    ensures [c] + [d] == [c, d] && [d] + [] == [d]
  {
  }

  /** Picking from a four-element order: each element in turn, when chosen. */
  lemma PickFour<X>(a: X, b: X, c: X, d: X, chosen: set<X>)
    ensures Pick([a, b, c, d], chosen)
      == (if a in chosen then [a] else []) + (if b in chosen then [b] else [])
       + (if c in chosen then [c] else []) + (if d in chosen then [d] else [])
  {
    var ga := if a in chosen then [a] else [];
    var gb := if b in chosen then [b] else [];
    var gc := if c in chosen then [c] else [];
    var gd := if d in chosen then [d] else [];
    ConsDisplays(a, b, c, d);
    PickCons(d, [], chosen);
    PickCons(c, [d], chosen);
    PickCons(b, [c, d], chosen);
    PickCons(a, [b, c, d], chosen);
    Assoc(gb, gc, gd);
    Assoc(ga, gb + gc, gd);
    Assoc(ga, gb, gc);
  }

  /** `collectProvidersFromFlags`: the providers whose flag is set, pushed one flag at a time. */
  method CollectProvidersFromFlags(options: DeployOptions) returns (providers: seq<string>)
    ensures providers == Pick(FlagOrder, Flagged(options))
  {
    providers := [];
    if options.ghpages {
      providers := providers + [GhPages];
    }
    if options.cfpages {
      providers := providers + [CfPages];
    }
    if options.vercel {
      providers := providers + [Vercel];
    }
    if options.netlify {
      providers := providers + [Netlify];
    }
    PickFour(GhPages, CfPages, Vercel, Netlify, Flagged(options));
    FlaggedMembers(options);
  }

  lemma FlaggedMembers(options: DeployOptions)
    ensures GhPages in Flagged(options) <==> options.ghpages
    ensures CfPages in Flagged(options) <==> options.cfpages
    ensures Vercel in Flagged(options) <==> options.vercel
    ensures Netlify in Flagged(options) <==> options.netlify
  {
    assert GhPages[0] == 'g' && CfPages[0] == 'c' && Vercel[0] == 'v' && Netlify[0] == 'n';
  }

  /**
   * The providers taken from the flags are exactly the flagged ones, without
   * repeats, in the order ghpages, cfpages, vercel, netlify.
   */
  lemma FlagProviders(options: DeployOptions)
    ensures var r := Pick(FlagOrder, Flagged(options));
      (forall p :: p in r <==> p in Flagged(options))
      && Distinct(r)
      && forall i, j :: 0 <= i < j < |r| ==> IndexOf(FlagOrder, r[i]) < IndexOf(FlagOrder, r[j])
  {
    PickMembers(FlagOrder, Flagged(options));
    PickInOrder(FlagOrder, Flagged(options));
  }

  /** With no flag set the command asks; otherwise the flags decide. */
  function ChosenProviders(options: DeployOptions, prompted: seq<string>): (r: seq<string>)
    ensures Flagged(options) == {} ==> r == prompted
    ensures Flagged(options) != {} ==> r == Pick(FlagOrder, Flagged(options))
  {
    var fromFlags := Pick(FlagOrder, Flagged(options));
    if |fromFlags| > 0 then
      assert fromFlags[0] in fromFlags;
      fromFlags
    else
      assert Flagged(options) == {} by {
        PickMembers(FlagOrder, Flagged(options));
        forall p | p in Flagged(options) ensures p in fromFlags { }
      }
      prompted
  }

  const WorkflowStem := "deploy-gittydocs"

  /** The file a provider's workflow goes to: one shared name for a single provider, one per provider otherwise. */
  function WorkflowFileName(provider: string, multiple: bool): (name: string)
    ensures !multiple ==> name == "deploy-gittydocs.yml"
    ensures multiple ==> name == "deploy-gittydocs-" + provider + ".yml"
  {
    if multiple then WorkflowStem + "-" + provider + ".yml" else WorkflowStem + ".yml"
  }

  /** Different providers get different files when there are several. */
  lemma WorkflowFileNameInjective(a: string, b: string)
    requires WorkflowFileName(a, true) == WorkflowFileName(b, true)
    ensures a == b
  {
    var stem := "deploy-gittydocs-";
    var fa := WorkflowFileName(a, true);
    var fb := WorkflowFileName(b, true);
    assert |a| == |b|;
    assert fa[|stem|..|stem| + |a|] == a;
    assert fb[|stem|..|stem| + |b|] == b;
  }

  /** The step that builds the docs: `npx gittydocs@latest build "./<docsPath>"`. */
  function BuildStep(docsPath: string): string {
    "      - run: npx gittydocs@latest build \"./" + docsPath + "\"\n"
  }

  const SetupSteps :=
    "      - uses: actions/checkout@v4\n" +
    "      - uses: actions/setup-node@v4\n" +
    "        with:\n" +
    "          node-version: 20\n" +
    "      - uses: oven-sh/setup-bun@v2\n"

  /** `renderCommonBuildSteps`: check out, set up Node 20 and Bun, build the docs. */
  function CommonBuildSteps(docsPath: string): string {
    SetupSteps + BuildStep(docsPath)
  }

  const OnPushMain :=
    "on:\n" +
    "  push:\n" +
    "    branches: [main]\n"

  const JobHead :=
    "jobs:\n" +
    "  deploy:\n" +
    "    runs-on: ubuntu-latest\n" +
    "    steps:\n"

  const WorkflowNameLead := "name: Deploy Gittydocs ("

  /**
   * The shape all four workflows share: a name, a push-to-main trigger, the
   * provider's permissions (GitHub Pages only), one job whose steps are the
   * common build steps followed by the provider's deploy steps.
   */
  function Workflow(title: string, permissions: string, docsPath: string, deploySteps: string): string {
    WorkflowNameLead + title + ")\n" + OnPushMain + permissions + JobHead + CommonBuildSteps(docsPath) + deploySteps
  }

  /** Every workflow of that shape builds the docs and starts with its name line. */
  lemma WorkflowShape(title: string, permissions: string, docsPath: string, deploySteps: string)
    ensures Contains(Workflow(title, permissions, docsPath, deploySteps), BuildStep(docsPath))
    ensures StartsWith(Workflow(title, permissions, docsPath, deploySteps), WorkflowNameLead)
  {
    var lead := WorkflowNameLead + title + ")\n" + OnPushMain + permissions + JobHead;
    var common := CommonBuildSteps(docsPath);
    ContainsMiddle(lead, common, deploySteps);
    ContainsMiddle(SetupSteps, BuildStep(docsPath), "");
    assert SetupSteps + BuildStep(docsPath) + "" == common;
    ContainsTransitive(lead + common + deploySteps, common, BuildStep(docsPath));
    var w := lead + common + deploySteps;
    assert w[..|WorkflowNameLead|] == lead[..|WorkflowNameLead|];
  }

  /** The name in a provider's workflow title. */
  function WorkflowTitle(provider: string): string {
    if provider == GhPages then "GitHub Pages"
    else if provider == CfPages then "Cloudflare Pages"
    else if provider == Netlify then "Netlify"
    else "Vercel"
  }

  /** The token permissions a provider's workflow asks for: only GitHub Pages asks. */
  function Permissions(provider: string): string {
    if provider == GhPages then
      "permissions:\n" +
      "  contents: read\n" +
      "  pages: write\n" +
      "  id-token: write\n"
    else ""
  }

  /** The steps after the build that publish `outDir` to the provider. */
  function DeploySteps(provider: string, outDir: string): string {
    if provider == GhPages then
      "      - uses: actions/upload-pages-artifact@v3\n" +
      "        with:\n" +
      "          path: ./" + outDir + "\n" +
      "      - uses: actions/deploy-pages@v4\n"
    else if provider == CfPages then
      "      - uses: cloudflare/pages-action@v1\n" +
      "        with:\n" +
      "          apiToken: ${{ secrets.CLOUDFLARE_API_TOKEN }}\n" +
      "          accountId: ${{ secrets.CLOUDFLARE_ACCOUNT_ID }}\n" +
      "          projectName: ${{ github.event.repository.name }}\n" +
      "          directory: ./" + outDir + "\n"
    else if provider == Netlify then
      "      - run: npx netlify-cli@latest deploy --dir=\"./" + outDir + "\" --prod\n" +
      "        env:\n" +
      "          NETLIFY_AUTH_TOKEN: ${{ secrets.NETLIFY_AUTH_TOKEN }}\n" +
      "          NETLIFY_SITE_ID: ${{ secrets.NETLIFY_SITE_ID }}\n"
    else
      "      - run: npx vercel@latest deploy --prod --yes --token=\"${VERCEL_TOKEN}\" \"./" + outDir + "\"\n" +
      "        env:\n" +
      "          VERCEL_TOKEN: ${{ secrets.VERCEL_TOKEN }}\n"
  }

  /** `renderWorkflow`: a known provider's workflow; nothing for any other name. */
  function RenderWorkflow(provider: string, docsPath: string, outDir: string): string {
    if provider in FlagOrder then
      Workflow(WorkflowTitle(provider), Permissions(provider), docsPath, DeploySteps(provider, outDir))
    else ""
  }

  /**
   * Every known provider's workflow builds the docs directory with the
   * published CLI and opens with its name line; any other provider name
   * renders to the empty string.
   */
  lemma WorkflowsBuildDocs(provider: string, docsPath: string, outDir: string)
    ensures provider in FlagOrder ==> Contains(RenderWorkflow(provider, docsPath, outDir), BuildStep(docsPath))
    ensures provider in FlagOrder ==> StartsWith(RenderWorkflow(provider, docsPath, outDir), WorkflowNameLead)
    ensures provider !in FlagOrder <==> RenderWorkflow(provider, docsPath, outDir) == ""
  {
    WorkflowShape(WorkflowTitle(provider), Permissions(provider), docsPath, DeploySteps(provider, outDir));
  }

  /** Where the build's static output goes: `path.join("dist", "client")`. */
  const OutDir := "dist/client"

  /** One workflow file written by the command. */
  datatype Written = Written(fileName: string, content: string)

  /** The file written for one provider. */
  function WriteFor(provider: string, docsPath: string, multiple: bool): Written {
    Written(WorkflowFileName(provider, multiple), RenderWorkflow(provider, docsPath, OutDir))
  }

  /**
   * The files written for `providers`, in order. A provider whose file
   * already exists is written only if the user agrees to overwrite it; a
   * written file exists for the providers after it.
   */
  function Writes(providers: seq<string>, docsPath: string, multiple: bool,
                  existing: set<string>, approved: set<string>): seq<Written>
  {
    if |providers| == 0 then []
    else
      var w := WriteFor(providers[0], docsPath, multiple);
      if w.fileName in existing && w.fileName !in approved then
        Writes(providers[1..], docsPath, multiple, existing, approved)
      else
        [w] + Writes(providers[1..], docsPath, multiple, existing + {w.fileName}, approved)
  }

  /** Every file written belongs to one of the providers, under that provider's name and with its workflow. */
  lemma {:induction false} WritesFromProviders(providers: seq<string>, docsPath: string, multiple: bool,
                                               existing: set<string>, approved: set<string>)
    ensures |Writes(providers, docsPath, multiple, existing, approved)| <= |providers|
    ensures forall w :: w in Writes(providers, docsPath, multiple, existing, approved) ==>
      exists k :: 0 <= k < |providers| && w == WriteFor(providers[k], docsPath, multiple)
  {
    if |providers| > 0 {
      var name := WorkflowFileName(providers[0], multiple);
      var rest := providers[1..];
      WritesFromProviders(rest, docsPath, multiple, existing, approved);
      WritesFromProviders(rest, docsPath, multiple, existing + {name}, approved);
      forall k | 0 <= k < |rest| ensures rest[k] == providers[k + 1] { }
    }
  }

  /**
   * Declining to overwrite skips that provider and no other: with distinct
   * providers (and a single one when the file name is shared), a provider's
   * workflow is written exactly when its file did not exist or the user
   * agreed to overwrite it.
   */
  lemma {:induction false} DeclineSkipsOnlyThatProvider(providers: seq<string>, docsPath: string, multiple: bool,
                                                        existing: set<string>, approved: set<string>)
    requires Distinct(providers)
    requires !multiple ==> |providers| <= 1
    ensures forall k :: 0 <= k < |providers| ==>
      (WriteFor(providers[k], docsPath, multiple) in Writes(providers, docsPath, multiple, existing, approved)
       <==> (WorkflowFileName(providers[k], multiple) !in existing || WorkflowFileName(providers[k], multiple) in approved))
  {
    if |providers| > 0 {
      var p := providers[0];
      var name := WorkflowFileName(p, multiple);
      var rest := providers[1..];
      assert Distinct(rest) by {
        forall i, j | 0 <= i < j < |rest| ensures rest[i] != rest[j] {
          assert rest[i] == providers[i + 1] && rest[j] == providers[j + 1];
        }
      }
      var skipped := name in existing && name !in approved;
      var existing' := if skipped then existing else existing + {name};
      DeclineSkipsOnlyThatProvider(rest, docsPath, multiple, existing', approved);
      WritesFromProviders(rest, docsPath, multiple, existing', approved);
      var tailWrites := Writes(rest, docsPath, multiple, existing', approved);
      assert Writes(providers, docsPath, multiple, existing, approved)
        == (if skipped then tailWrites else [WriteFor(p, docsPath, multiple)] + tailWrites);
      // The head's file name is no other provider's.
      forall k | 0 <= k < |rest| ensures WorkflowFileName(rest[k], multiple) != name {
        assert rest[k] == providers[k + 1];
        if multiple && WorkflowFileName(rest[k], multiple) == name {
          WorkflowFileNameInjective(rest[k], p);
        }
      }
      forall w | w in tailWrites ensures w.fileName != name {
        var m :| 0 <= m < |rest| && w == WriteFor(rest[m], docsPath, multiple);
      }
      forall k | 0 <= k < |providers|
        ensures WriteFor(providers[k], docsPath, multiple) in Writes(providers, docsPath, multiple, existing, approved)
          <==> (WorkflowFileName(providers[k], multiple) !in existing || WorkflowFileName(providers[k], multiple) in approved)
      {
        if k > 0 {
          assert providers[k] == rest[k - 1];
          var f := WorkflowFileName(providers[k], multiple);
          assert f in existing' <==> f in existing;
        }
      }
    }
  }

  /**
   * The command's main loop: each provider's workflow is rendered and
   * written, except where its file exists and the user declines.
   */
  method WriteAll(providers: seq<string>, docsPath: string, existing: set<string>, approved: set<string>)
    returns (written: seq<Written>)
    ensures written == Writes(providers, docsPath, |providers| > 1, existing, approved)
  {
    var multiple := |providers| > 1;
    var present := existing;
    written := [];
    for k := 0 to |providers|
      invariant written + Writes(providers[k..], docsPath, multiple, present, approved)
             == Writes(providers, docsPath, multiple, existing, approved)
    {
      var provider := providers[k];
      var fileName := WorkflowFileName(provider, multiple);
      assert providers[k..][1..] == providers[k + 1..];
      if fileName in present && fileName !in approved {
        continue;
      }
      var workflow := RenderWorkflow(provider, docsPath, OutDir);
      written := written + [Written(fileName, workflow)];
      present := present + {fileName};
    }
    assert providers[|providers|..] == [];
  }

  /**
   * The whole command after the configuration is found: the providers come
   * from the flags or, with none set, from the prompt; their workflows are
   * written; the closing note covers every chosen provider.
   */
  method RunDeploy(options: DeployOptions, prompted: seq<string>, docsPath: string,
                   existing: set<string>, approved: set<string>) returns (written: seq<Written>, whatNext: string)
    ensures var providers := ChosenProviders(options, prompted);
      written == Writes(providers, docsPath, |providers| > 1, existing, approved)
      && whatNext == RenderWhatNext(providers)
  {
    var providers := CollectProvidersFromFlags(options);
    if |providers| == 0 {
      providers := prompted;
    }
    written := WriteAll(providers, docsPath, existing, approved);
    var lines := WhatNextLines(providers);
    assert lines == CommitLines + Concat(WhatNextProviders(providers), Section);
    whatNext := Join(lines, "\n");
  }

  /** The chosen providers from the flags are distinct, so the decline rule applies to them. */
  lemma FlaggedWritesSkipOnlyDeclined(options: DeployOptions, docsPath: string, existing: set<string>, approved: set<string>)
    ensures var providers := Pick(FlagOrder, Flagged(options));
      forall k :: 0 <= k < |providers| ==>
        (WriteFor(providers[k], docsPath, |providers| > 1) in Writes(providers, docsPath, |providers| > 1, existing, approved)
         <==> (WorkflowFileName(providers[k], |providers| > 1) !in existing
               || WorkflowFileName(providers[k], |providers| > 1) in approved))
  {
    var providers := Pick(FlagOrder, Flagged(options));
    FlagProviders(options);
    DeclineSkipsOnlyThatProvider(providers, docsPath, |providers| > 1, existing, approved);
  }

  /** The lines that always open the closing note. */
  const CommitLines: seq<string> := [
    "Commit and push:",
    "  git add .github/workflows",
    "  git commit -m \"deploy: add gittydocs workflow\"",
    "  git push"
  ]

  /** A provider's section of the closing note: a blank line, its heading, its instructions. */
  function Section(provider: string): seq<string> {
    if provider == GhPages then
      ["", "GitHub Pages:", "  Repo Settings -> Pages -> Source: GitHub Actions"]
    else if provider == CfPages then
      ["", "Cloudflare Pages:", "  Set secrets: CLOUDFLARE_API_TOKEN, CLOUDFLARE_ACCOUNT_ID",
       "  Ensure your Pages project name matches the repo name, or edit projectName"]
    else if provider == Netlify then
      ["", "Netlify:", "  Set secrets: NETLIFY_AUTH_TOKEN, NETLIFY_SITE_ID"]
    else
      ["", "Vercel:", "  Set secret: VERCEL_TOKEN"]
  }

  /** The lines of `f` for each of `xs`, one after another. */
  function Concat(xs: seq<string>, f: string -> seq<string>): seq<string> {
    if |xs| == 0 then [] else f(xs[0]) + Concat(xs[1..], f)
  }

  lemma {:induction false} ConcatAppend(xs: seq<string>, ys: seq<string>, f: string -> seq<string>)
    ensures Concat(xs + ys, f) == Concat(xs, f) + Concat(ys, f)
  {
    if |xs| == 0 {
      assert xs + ys == ys;
    } else {
      assert (xs + ys)[1..] == xs[1..] + ys;
      ConcatAppend(xs[1..], ys, f);
    }
  }

  /** Concatenating over a four-element pick: one optional group after another. */
  lemma ConcatPickFour(a: string, b: string, c: string, d: string, chosen: set<string>, f: string -> seq<string>)
    ensures Concat(Pick([a, b, c, d], chosen), f)
      == (if a in chosen then f(a) else []) + (if b in chosen then f(b) else [])
       + (if c in chosen then f(c) else []) + (if d in chosen then f(d) else [])
  {
    PickFour(a, b, c, d, chosen);
    var ga := if a in chosen then [a] else [];
    var gb := if b in chosen then [b] else [];
    var gc := if c in chosen then [c] else [];
    var gd := if d in chosen then [d] else [];
    ConcatAppend(ga + gb + gc, gd, f);
    ConcatAppend(ga + gb, gc, f);
    ConcatAppend(ga, gb, f);
    assert Concat(ga, f) == (if a in chosen then f(a) else []) by {
      if a in chosen { assert Concat(ga, f) == f(a) + Concat([], f); }
    }
    assert Concat(gb, f) == (if b in chosen then f(b) else []) by {
      if b in chosen { assert Concat(gb, f) == f(b) + Concat([], f); }
    }
    assert Concat(gc, f) == (if c in chosen then f(c) else []) by {
      if c in chosen { assert Concat(gc, f) == f(c) + Concat([], f); }
    }
    assert Concat(gd, f) == (if d in chosen then f(d) else []) by {
      if d in chosen { assert Concat(gd, f) == f(d) + Concat([], f); }
    }
  }

  /** The providers the closing note has a section for, in section order. */
  function WhatNextProviders(providers: seq<string>): seq<string> {
    Pick(WhatNextOrder, set p | p in providers)
  }

  /**
   * `renderWhatNext`'s lines, pushed one group at a time: the commit lines,
   * then the section of each chosen provider, in the fixed section order.
   */
  method WhatNextLines(providers: seq<string>) returns (lines: seq<string>)
    ensures lines == CommitLines + Concat(WhatNextProviders(providers), Section)
  {
    lines := CommitLines;
    var section := Section;
    // The section groups in the order they are pushed; each is empty unless its provider is chosen.
    var chosen := set p | p in providers;
    assert GhPages in chosen <==> GhPages in providers;
    assert CfPages in chosen <==> CfPages in providers;
    assert Netlify in chosen <==> Netlify in providers;
    assert Vercel in chosen <==> Vercel in providers;
    var gh: seq<string> := if GhPages in chosen then section(GhPages) else [];
    var cf: seq<string> := if CfPages in chosen then section(CfPages) else [];
    var nf: seq<string> := if Netlify in chosen then section(Netlify) else [];
    var vc: seq<string> := if Vercel in chosen then section(Vercel) else [];
    var sections: seq<string> := [];
    if GhPages in providers {
      sections := sections + section(GhPages);
    }
    assert sections == gh;
    if CfPages in providers {
      sections := sections + section(CfPages);
    }
    assert sections == gh + cf;
    if Netlify in providers {
      sections := sections + section(Netlify);
    }
    assert sections == gh + cf + nf;
    if Vercel in providers {
      sections := sections + section(Vercel);
    }
    assert sections == gh + cf + nf + vc;
    ConcatPickFour(GhPages, CfPages, Netlify, Vercel, chosen, section);
    lines := lines + sections;
  }

  /** `renderWhatNext`: the note's lines joined with newlines. */
  function RenderWhatNext(providers: seq<string>): string {
    Join(CommitLines + Concat(WhatNextProviders(providers), Section), "\n")
  }

  /**
   * The note always opens with the commit instructions; it has a section
   * for a provider exactly when that provider was chosen, each once, in the
   * order GitHub Pages, Cloudflare Pages, Netlify, Vercel.
   */
  lemma WhatNextSections(providers: seq<string>)
    ensures StartsWith(RenderWhatNext(providers), "Commit and push:")
    ensures var picked := WhatNextProviders(providers);
      (forall p :: p in picked <==> p in WhatNextOrder && p in providers)
      && Distinct(picked)
      && forall i, j :: 0 <= i < j < |picked| ==> IndexOf(WhatNextOrder, picked[i]) < IndexOf(WhatNextOrder, picked[j])
  {
    var chosen := set q | q in providers;
    PickMembers(WhatNextOrder, chosen);
    PickInOrder(WhatNextOrder, chosen);
    WhatNextLead(providers);
  }

  lemma WhatNextLead(providers: seq<string>)
    ensures StartsWith(RenderWhatNext(providers), "Commit and push:")
  {
    var lines := CommitLines + Concat(WhatNextProviders(providers), Section);
    var lead := "Commit and push:";
    assert lines[0] == lead;
    var joined := Join(lines, "\n");
    assert joined == lines[0] + "\n" + Join(lines[1..], "\n");
    assert joined[..|lead|] == lead;
  }

  /** The configuration directory relative to the repository root, with forward slashes; the root itself is `.`. */
  function DocsDirRel(relative: string): (r: string)
    ensures r != ""
    ensures relative == "" ==> r == "."
    ensures relative != "" ==> |r| == |relative| && forall i :: 0 <= i < |r| ==> r[i] != '\\'
  {
    var slashed := ReplaceChar(relative, '\\', '/');
    if slashed == "" then "." else slashed
  }

  /** A found configuration file and its directory relative to the repository root. */
  datatype LocalConfig = LocalConfig(filePath: string, docsDirRel: string)

  /** A candidate configuration file and its directory, both relative to the repository root. */
  datatype Candidate = Candidate(filePath: string, dir: string)

  /** `findLocalConfig`'s fixed candidates, in the order they are tried. */
  const FixedCandidates: seq<Candidate> := [
    Candidate("docs/gittydocs.jsonc", "docs"),
    Candidate("docs/gittydocs.json", "docs"),
    Candidate("gittydocs.jsonc", ""),
    Candidate("gittydocs.json", "")
  ]

  /** The first candidate that exists, with its directory made relative. */
  function FirstExisting(candidates: seq<Candidate>, present: set<string>): (r: Option<LocalConfig>)
    ensures r.None? <==> forall k :: 0 <= k < |candidates| ==> candidates[k].filePath !in present
    ensures r.Some? ==>
      exists k :: (0 <= k < |candidates| && candidates[k].filePath in present
        && r.value == LocalConfig(candidates[k].filePath, DocsDirRel(candidates[k].dir))
        && forall m :: 0 <= m < k ==> candidates[m].filePath !in present)
  {
    if |candidates| == 0 then None
    else if candidates[0].filePath in present then
      Some(LocalConfig(candidates[0].filePath, DocsDirRel(candidates[0].dir)))
    else
      FirstExistingStep(candidates, present);
      FirstExisting(candidates[1..], present)
  }

  lemma FirstExistingStep(candidates: seq<Candidate>, present: set<string>)
    requires |candidates| > 0 && candidates[0].filePath !in present
    ensures forall k :: 1 <= k < |candidates| ==> candidates[k] == candidates[1..][k - 1]
  {
  }

  /** The one-level-deep scan's candidates: `<dir>/gittydocs.jsonc`, then `<dir>/gittydocs.json`, per directory. */
  function OneLevelDeep(dirs: seq<string>): seq<Candidate> {
    if |dirs| == 0 then []
    else
      var dir := dirs[0];
      [Candidate(dir + "/gittydocs.jsonc", dir), Candidate(dir + "/gittydocs.json", dir)] + OneLevelDeep(dirs[1..])
  }

  /**
   * `findLocalConfig`: the fixed candidates first, then the top-level
   * directories in listing order; `present` is the set of files that exist.
   */
  function FindLocalConfig(present: set<string>, dirs: seq<string>): Option<LocalConfig> {
    var fixed := FirstExisting(FixedCandidates, present);
    if fixed.Some? then fixed else FirstExisting(OneLevelDeep(dirs), present)
  }

  /**
   * A configuration under `docs/` wins over one at the root, and one at the
   * root has `.` as its directory.
   */
  lemma ConfigLookupOrder(present: set<string>, dirs: seq<string>)
    ensures "docs/gittydocs.jsonc" in present ==>
      FindLocalConfig(present, dirs) == Some(LocalConfig("docs/gittydocs.jsonc", "docs"))
    ensures "docs/gittydocs.jsonc" !in present && "docs/gittydocs.json" !in present && "gittydocs.jsonc" in present ==>
      FindLocalConfig(present, dirs) == Some(LocalConfig("gittydocs.jsonc", "."))
  {
    assert ReplaceChar("docs", '\\', '/') == "docs";
    var c := FixedCandidates;
    if "docs/gittydocs.jsonc" !in present && "docs/gittydocs.json" !in present && "gittydocs.jsonc" in present {
      assert c[1..][1..] == c[2..];
      assert FirstExisting(c, present) == FirstExisting(c[1..], present);
      assert FirstExisting(c[1..], present) == FirstExisting(c[2..], present);
      assert FirstExisting(c[2..], present) == Some(LocalConfig("gittydocs.jsonc", DocsDirRel("")));
    }
  }
}
