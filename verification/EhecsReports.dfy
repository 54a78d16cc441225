/**
 What the EHECS tenant reports, with every code and field written out: which
 items a report contains, in which order, and that no field is reported twice.
 */
module EhecsReports {
  import opened Wrappers
  import opened Records
  import opened Paths
  import opened Reports
  import opened Ehecs
  import opened EhecsLaws

  // ---- Which items are reported ----

  predicate Item(x: ValidationItem, code: string, field: string) {
    x == ValidationItem(code, field)
  }

  /** `x` reports something that is wrong with the header of the body. */
  ghost predicate HeaderComplaint(b: SubmissionBody, x: ValidationItem) {
    || (Blank(b.holdingNumber) && Item(x, "REQUIRED", "holdingNumber"))
    || (!(2008 <= b.taxYear <= 2099) && Item(x, "INVALID_VALUE", "taxYear"))
    || (!(1 <= b.quarter <= 4) && Item(x, "INVALID_VALUE", "quarter"))
    || (b.returnType !in {"", "ORIGINAL", "AMENDED"} && Item(x, "INVALID_VALUE", "returnType"))
    || (b.employees == [] && Item(x, "REQUIRED", "employees"))
  }

  /** `x` reports something that the schema layer finds wrong with employee `i`. */
  ghost predicate SchemaComplaint(i: nat, e: Employee, x: ValidationItem) {
    || (!ValidPpsn(e.ppsn) && Item(x, "INVALID_FORMAT", EmployeePath(i, "ppsn")))
    || (Blank(e.employmentId) && Item(x, "REQUIRED", EmployeePath(i, "employmentId")))
    || (!(1 <= e.occupationCode <= 9) && Item(x, "INVALID_VALUE", EmployeePath(i, "occupationCode")))
    || (e.employmentType !in {"FULL_TIME", "PART_TIME", "TRAINEE", "APPRENTICE", "OTHER"}
        && Item(x, "INVALID_VALUE", EmployeePath(i, "employmentType")))
    || SignComplaint(i, e, x)
  }

  ghost predicate SignComplaint(i: nat, e: Employee, x: ValidationItem) {
    || (e.grossEarnings < 0.0 && Item(x, "INVALID_VALUE", EmployeePath(i, "grossEarnings")))
    || (e.basicPay < 0.0 && Item(x, "INVALID_VALUE", EmployeePath(i, "basicPay")))
    || (e.basicHours < 0.0 && Item(x, "INVALID_VALUE", EmployeePath(i, "basicHours")))
    || (e.overtimePay < 0.0 && Item(x, "INVALID_VALUE", EmployeePath(i, "overtimePay")))
    || (e.overtimeHours < 0.0 && Item(x, "INVALID_VALUE", EmployeePath(i, "overtimeHours")))
    || (e.employerPRSI < 0.0 && Item(x, "INVALID_VALUE", EmployeePath(i, "employerPRSI")))
  }

  ghost predicate LogicComplaint(i: nat, e: Employee, x: ValidationItem) {
    || (e.overtimePay > 0.0 && e.overtimeHours == 0.0
        && Item(x, "OVERTIME_INCONSISTENCY", EmployeePath(i, "overtimeHours")))
    || (e.grossEarnings < e.overtimePay && Item(x, "EARNINGS_INCONSISTENCY", EmployeePath(i, "grossEarnings")))
    || (e.basicHours > 2184.0 && Item(x, "HOURS_EXCEEDED", EmployeePath(i, "basicHours")))
  }

  ghost predicate Concern(i: nat, e: Employee, x: ValidationItem) {
    || (e.grossEarnings == 0.0 && Item(x, "ZERO_EARNINGS", EmployeePath(i, "grossEarnings")))
    || (e.employerPRSI == 0.0 && e.employmentType == "FULL_TIME"
        && Item(x, "ZERO_PRSI_FULL_TIME", EmployeePath(i, "employerPRSI")))
  }

  /** Rule `r` is broken by employee `i`, and `x` is the item for it. */
  predicate Says(r: Rule, i: nat, e: Employee, x: ValidationItem) {
    Breaks(r, e) && x == ItemFor(r, i)
  }

  lemma SchemaRulesSay(i: nat, e: Employee, x: ValidationItem)
    ensures (exists k: nat :: k < |SCHEMA_RULES| && Says(SCHEMA_RULES[k], i, e, x)) <==> SchemaComplaint(i, e, x)
  {
    PpsnMatchesIff(e.ppsn);
    TrimSpaceIsEmptyIff(e.employmentId);
    FirstRulesSay(i, e, x);
    SignRulesSay(i, e, x);
    SomeSchemaRule((r: Rule) => Says(r, i, e, x));
    assert (exists k: nat :: k < |SCHEMA_RULES| && Says(SCHEMA_RULES[k], i, e, x))
        <==> exists k: nat :: k < |SCHEMA_RULES| && ((r: Rule) => Says(r, i, e, x))(SCHEMA_RULES[k]);
  }

  lemma FirstRulesSay(i: nat, e: Employee, x: ValidationItem)
    ensures Says(PpsnFormat, i, e, x) <==> !PpsnMatches(e.ppsn) && Item(x, "INVALID_FORMAT", EmployeePath(i, "ppsn"))
    ensures Says(EmploymentIdGiven, i, e, x)
            <==> TrimSpace(e.employmentId) == "" && Item(x, "REQUIRED", EmployeePath(i, "employmentId"))
    ensures Says(OccupationInRange, i, e, x)
            <==> !(1 <= e.occupationCode <= 9) && Item(x, "INVALID_VALUE", EmployeePath(i, "occupationCode"))
    ensures Says(EmploymentTypeKnown, i, e, x)
            <==> e.employmentType !in {"FULL_TIME", "PART_TIME", "TRAINEE", "APPRENTICE", "OTHER"}
                 && Item(x, "INVALID_VALUE", EmployeePath(i, "employmentType"))
  {
  }

  lemma SignRulesSay(i: nat, e: Employee, x: ValidationItem)
    ensures (|| Says(GrossEarningsSign, i, e, x) || Says(BasicPaySign, i, e, x) || Says(BasicHoursSign, i, e, x)
             || Says(OvertimePaySign, i, e, x) || Says(OvertimeHoursSign, i, e, x) || Says(EmployerPrsiSign, i, e, x))
            <==> SignComplaint(i, e, x)
  {
  }

  lemma LogicRulesSay(i: nat, e: Employee, x: ValidationItem)
    ensures (exists k: nat :: k < |LOGIC_RULES| && Says(LOGIC_RULES[k], i, e, x)) <==> LogicComplaint(i, e, x)
  {
    var r := LOGIC_RULES;
    assert (exists k: nat :: k < |r| && Says(r[k], i, e, x)) <==>
           Says(r[0], i, e, x) || Says(r[1], i, e, x) || Says(r[2], i, e, x);
  }

  lemma WarningRulesSay(i: nat, e: Employee, x: ValidationItem)
    ensures (exists k: nat :: k < |WARNING_RULES| && Says(WARNING_RULES[k], i, e, x)) <==> Concern(i, e, x)
  {
    var r := WARNING_RULES;
    assert (exists k: nat :: k < |r| && Says(r[k], i, e, x)) <==> Says(r[0], i, e, x) || Says(r[1], i, e, x);
  }

  lemma ReportSays(rules: seq<Rule>, es: seq<Employee>, x: ValidationItem)
    ensures x in EmployeesReport(rules, es)
            <==> exists i: nat :: i < |es| && exists k: nat :: k < |rules| && Says(rules[k], i, es[i], x)
  {
    ReportIsExact(rules, es, |es|, Breaks, ItemFor, x);
    if k: nat, i: nat :| i < |es| && Tells(rules, k, es, i, Breaks, ItemFor, x) {
      assert Says(rules[k], i, es[i], x);
    }
    if i: nat, k: nat :| i < |es| && k < |rules| && Says(rules[k], i, es[i], x) {
      assert Tells(rules, k, es, i, Breaks, ItemFor, x);
    }
  }

  /** The schema layer reports exactly what is wrong with the header and with each employee. */
  lemma SchemaReportIff(b: SubmissionBody, x: ValidationItem)
    ensures x in SchemaErrors(Some(b))
            <==> HeaderComplaint(b, x) || exists i: nat :: i < |b.employees| && SchemaComplaint(i, b.employees[i], x)
  {
    TrimSpaceIsEmptyIff(b.holdingNumber);
    ReportSays(SCHEMA_RULES, b.employees, x);
    forall i: nat | i < |b.employees|
      ensures (exists k: nat :: k < |SCHEMA_RULES| && Says(SCHEMA_RULES[k], i, b.employees[i], x))
              <==> SchemaComplaint(i, b.employees[i], x)
    {
      SchemaRulesSay(i, b.employees[i], x);
    }
    SchemaReportParts(b, x);
  }

  lemma SchemaReportParts(b: SubmissionBody, x: ValidationItem)
    ensures x in SchemaErrors(Some(b))
            <==> || x in HeaderErrors(b) || (b.employees == [] && Item(x, "REQUIRED", "employees"))
                 || x in EmployeesReport(SCHEMA_RULES, b.employees)
    ensures x in HeaderErrors(b)
            <==> || (TrimSpace(b.holdingNumber) == "" && Item(x, "REQUIRED", "holdingNumber"))
                 || (!(2008 <= b.taxYear <= 2099) && Item(x, "INVALID_VALUE", "taxYear"))
                 || (!(1 <= b.quarter <= 4) && Item(x, "INVALID_VALUE", "quarter"))
                 || (b.returnType !in {"", "ORIGINAL", "AMENDED"} && Item(x, "INVALID_VALUE", "returnType"))
  {
  }

  /** The logic layer reports exactly the inconsistencies of each employee. */
  lemma LogicReportIff(b: SubmissionBody, x: ValidationItem)
    ensures x in LogicErrors(Some(b))
            <==> exists i: nat :: i < |b.employees| && LogicComplaint(i, b.employees[i], x)
  {
    ReportSays(LOGIC_RULES, b.employees, x);
    forall i: nat | i < |b.employees|
      ensures (exists k: nat :: k < |LOGIC_RULES| && Says(LOGIC_RULES[k], i, b.employees[i], x))
              <==> LogicComplaint(i, b.employees[i], x)
    {
      LogicRulesSay(i, b.employees[i], x);
    }
  }

  /** It warns exactly of zero earnings, and of zero PRSI for full-time employees. */
  lemma WarningReportIff(b: SubmissionBody, x: ValidationItem)
    ensures x in LogicWarnings(Some(b)) <==> exists i: nat :: i < |b.employees| && Concern(i, b.employees[i], x)
  {
    ReportSays(WARNING_RULES, b.employees, x);
    forall i: nat | i < |b.employees|
      ensures (exists k: nat :: k < |WARNING_RULES| && Says(WARNING_RULES[k], i, b.employees[i], x))
              <==> Concern(i, b.employees[i], x)
    {
      WarningRulesSay(i, b.employees[i], x);
    }
  }

  /** A body that does not decode is reported as such by either layer, without warnings, and counts no items. */
  lemma UndecodedReport()
    ensures SchemaErrors(None) == LogicErrors(None) == [ValidationItem("INVALID_JSON", "")]
    ensures LogicWarnings(None) == [] && ItemCount(None) == 0
  {
  }

  // ---- In which order ----

  const HEADER_FIELDS: seq<string> := ["holdingNumber", "taxYear", "quarter", "returnType", "employees"]

  const SCHEMA_FIELDS: seq<string> :=
    ["ppsn", "employmentId", "occupationCode", "employmentType",
     "grossEarnings", "basicPay", "basicHours", "overtimePay", "overtimeHours", "employerPRSI"]

  const LOGIC_FIELDS: seq<string> := ["overtimeHours", "grossEarnings", "basicHours"]

  const WARNING_FIELDS: seq<string> := ["grossEarnings", "employerPRSI"]

  /** `f` is the path of an earlier employee than `g` is, or of the same employee and an earlier name. */
  ghost predicate ComesBefore(names: seq<string>, f: string, g: string) {
    exists i: nat, k: nat, j: nat, m: nat ::
      && k < |names| && m < |names|
      && f == EmployeePath(i, names[k]) && g == EmployeePath(j, names[m])
      && (i < j || (i == j && k < m))
  }

  ghost predicate IsPath(names: seq<string>, f: string) {
    exists i: nat, k: nat :: k < |names| && f == EmployeePath(i, names[k])
  }

  ghost predicate ComesBeforeInHeader(f: string, g: string) {
    exists k: nat, m: nat :: k < m < |HEADER_FIELDS| && f == HEADER_FIELDS[k] && g == HEADER_FIELDS[m]
  }

  /** The schema layer reports the header, then the employees. */
  ghost predicate SchemaOrder(x: ValidationItem, y: ValidationItem) {
    || ComesBeforeInHeader(x.field, y.field)
    || (x.field in HEADER_FIELDS && IsPath(SCHEMA_FIELDS, y.field))
    || ComesBefore(SCHEMA_FIELDS, x.field, y.field)
  }

  ghost predicate LogicOrder(x: ValidationItem, y: ValidationItem) {
    ComesBefore(LOGIC_FIELDS, x.field, y.field)
  }

  ghost predicate WarningOrder(x: ValidationItem, y: ValidationItem) {
    ComesBefore(WARNING_FIELDS, x.field, y.field)
  }

  /** The names of the checks, in their order. */
  ghost predicate Names(rules: seq<Rule>, names: seq<string>) {
    |rules| == |names| && forall k | 0 <= k < |rules| :: FieldName(rules[k]) == names[k]
  }

  lemma EmployeesReportInOrder(rules: seq<Rule>, names: seq<string>, es: seq<Employee>,
                               rel: (ValidationItem, ValidationItem) -> bool)
    requires Names(rules, names)
    requires forall x: ValidationItem, y: ValidationItem | ComesBefore(names, x.field, y.field) :: rel(x, y)
    ensures Pairwise(EmployeesReport(rules, es), rel)
  {
    forall k: nat, i: nat, m: nat, j: nat | k < |rules| && m < |rules| && (i < j || (i == j && k < m))
      ensures rel(ItemFor(rules[k], i), ItemFor(rules[m], j))
    {
      assert ItemFor(rules[k], i).field == EmployeePath(i, names[k]);
      assert ItemFor(rules[m], j).field == EmployeePath(j, names[m]);
      assert ComesBefore(names, ItemFor(rules[k], i).field, ItemFor(rules[m], j).field);
    }
    ReportInOrder(rules, es, |es|, Breaks, ItemFor, rel);
  }

  /** The items are about the first `k` names of the header, in their order. */
  ghost predicate HeaderUpTo(s: seq<ValidationItem>, k: nat)
    requires k <= |HEADER_FIELDS|
  {
    Pairwise(s, SchemaOrder) && forall x | x in s :: x.field in HEADER_FIELDS[..k]
  }

  lemma HeaderStep(s: seq<ValidationItem>, k: nat, t: seq<ValidationItem>)
    requires k < |HEADER_FIELDS| && HeaderUpTo(s, k)
    requires |t| <= 1 && forall y | y in t :: y.field == HEADER_FIELDS[k]
    ensures HeaderUpTo(s + t, k + 1)
  {
    assert HEADER_FIELDS[..k + 1] == HEADER_FIELDS[..k] + [HEADER_FIELDS[k]];
    forall x, y | x in s && y in t
      ensures SchemaOrder(x, y)
    {
      var j: nat :| j < k && HEADER_FIELDS[..k][j] == x.field;
      assert HEADER_FIELDS[j] == x.field && HEADER_FIELDS[k] == y.field;
      assert ComesBeforeInHeader(x.field, y.field);
    }
    PairwiseConcat(s, t, SchemaOrder);
  }

  lemma HeaderInOrder(b: SubmissionBody)
    ensures HeaderUpTo(HeaderErrors(b), 4)
  {
    var holder := if TrimSpace(b.holdingNumber) == "" then [ValidationItem("REQUIRED", "holdingNumber")] else [];
    var year := if b.taxYear < 2008 || b.taxYear > 2099 then [ValidationItem("INVALID_VALUE", "taxYear")] else [];
    var quarter := if b.quarter < 1 || b.quarter > 4 then [ValidationItem("INVALID_VALUE", "quarter")] else [];
    var kind := if b.returnType != "" && b.returnType != "ORIGINAL" && b.returnType != "AMENDED"
      then [ValidationItem("INVALID_VALUE", "returnType")] else [];
    assert HeaderErrors(b) == holder + year + quarter + kind;
    HeaderChain(holder, year, quarter, kind);
  }

  predicate AtMost(s: seq<ValidationItem>, field: string) {
    |s| <= 1 && forall x | x in s :: x.field == field
  }

  lemma HeaderChain(holder: seq<ValidationItem>, year: seq<ValidationItem>,
                    quarter: seq<ValidationItem>, kind: seq<ValidationItem>)
    requires AtMost(holder, "holdingNumber") && AtMost(year, "taxYear")
    requires AtMost(quarter, "quarter") && AtMost(kind, "returnType")
    ensures HeaderUpTo(holder + year + quarter + kind, 4)
  {
    HeaderStep([], 0, holder);
    assert [] + holder == holder;
    HeaderStep(holder, 1, year);
    HeaderStep(holder + year, 2, quarter);
    HeaderStep(holder + year + quarter, 3, kind);
  }

  lemma RulesAreNamed()
    ensures Names(SCHEMA_RULES, SCHEMA_FIELDS) && Names(LOGIC_RULES, LOGIC_FIELDS)
    ensures Names(WARNING_RULES, WARNING_FIELDS)
  {
  }

  lemma ReportHasPaths(rules: seq<Rule>, names: seq<string>, es: seq<Employee>, x: ValidationItem)
    requires Names(rules, names) && x in EmployeesReport(rules, es)
    ensures IsPath(names, x.field)
  {
    ReportIsExact(rules, es, |es|, Breaks, ItemFor, x);
    var k: nat, i: nat :| i < |es| && Tells(rules, k, es, i, Breaks, ItemFor, x);
    assert x.field == EmployeePath(i, names[k]);
  }

  lemma HeaderThenEmployees(s: seq<ValidationItem>, t: seq<ValidationItem>)
    requires HeaderUpTo(s, 4) && Pairwise(t, SchemaOrder)
    requires forall y | y in t :: IsPath(SCHEMA_FIELDS, y.field)
    ensures Pairwise(s + t, SchemaOrder)
  {
    forall x, y | x in s && y in t
      ensures SchemaOrder(x, y)
    {
      assert x.field in HEADER_FIELDS[..4];
    }
    PairwiseConcat(s, t, SchemaOrder);
  }

  lemma SchemaErrorsInOrder(b: SubmissionBody)
    ensures Pairwise(SchemaErrors(Some(b)), SchemaOrder)
  {
    var header, report := HeaderErrors(b), EmployeesReport(SCHEMA_RULES, b.employees);
    HeaderInOrder(b);
    if b.employees == [] {
      HeaderStep(header, 4, [ValidationItem("REQUIRED", "employees")]);
    } else {
      RulesAreNamed();
      EmployeesReportInOrder(SCHEMA_RULES, SCHEMA_FIELDS, b.employees, SchemaOrder);
      forall y | y in report
        ensures IsPath(SCHEMA_FIELDS, y.field)
      {
        ReportHasPaths(SCHEMA_RULES, SCHEMA_FIELDS, b.employees, y);
      }
      HeaderThenEmployees(header, report);
    }
  }

  /** All reports go through the employees in turn and through the checks in the order of the lists above. */
  lemma ReportsAreInOrder(b: SubmissionBody)
    ensures Pairwise(SchemaErrors(Some(b)), SchemaOrder)
    ensures Pairwise(LogicErrors(Some(b)), LogicOrder)
    ensures Pairwise(LogicWarnings(Some(b)), WarningOrder)
  {
    SchemaErrorsInOrder(b);
    RulesAreNamed();
    EmployeesReportInOrder(LOGIC_RULES, LOGIC_FIELDS, b.employees, LogicOrder);
    EmployeesReportInOrder(WARNING_RULES, WARNING_FIELDS, b.employees, WarningOrder);
  }

  // ---- No field is reported twice ----

  ghost predicate FieldsDiffer(s: seq<ValidationItem>) {
    forall a, b | 0 <= a < b < |s| :: s[a].field != s[b].field
  }

  ghost predicate Distinct(names: seq<string>) {
    forall k, m | 0 <= k < m < |names| :: names[k] != names[m]
  }

  lemma BeforeIsDifferent(names: seq<string>, f: string, g: string)
    requires Distinct(names) && ComesBefore(names, f, g)
    ensures f != g
  {
    var i: nat, k: nat, j: nat, m: nat :|
      && k < |names| && m < |names|
      && f == EmployeePath(i, names[k]) && g == EmployeePath(j, names[m])
      && (i < j || (i == j && k < m));
    if f == g {
      PathIsInjective(i, names[k], j, names[m]);
    }
  }

  lemma NamesAreDistinct()
    ensures Distinct(SCHEMA_FIELDS) && Distinct(LOGIC_FIELDS) && Distinct(WARNING_FIELDS) && Distinct(HEADER_FIELDS)
  {
  }

  lemma PathIsNoHeader(f: string)
    requires IsPath(SCHEMA_FIELDS, f)
    ensures f !in HEADER_FIELDS
  {
    var i: nat, k: nat :| k < |SCHEMA_FIELDS| && f == EmployeePath(i, SCHEMA_FIELDS[k]);
    assert |f| > 9 && f[0] == 'e';
    assert forall m | 0 <= m < |HEADER_FIELDS| :: |HEADER_FIELDS[m]| <= 9 || HEADER_FIELDS[m][0] != 'e';
  }

  lemma SchemaOrderIsDifferent(x: ValidationItem, y: ValidationItem)
    requires SchemaOrder(x, y)
    ensures x.field != y.field
  {
    NamesAreDistinct();
    if IsPath(SCHEMA_FIELDS, y.field) {
      PathIsNoHeader(y.field);
    }
    if ComesBefore(SCHEMA_FIELDS, x.field, y.field) {
      BeforeIsDifferent(SCHEMA_FIELDS, x.field, y.field);
    }
  }

  /** No two items of any list that the tenant reports share a field path. */
  lemma FieldsAreDistinct(d: Option<SubmissionBody>)
    ensures FieldsDiffer(SchemaErrors(d)) && FieldsDiffer(LogicErrors(d)) && FieldsDiffer(LogicWarnings(d))
  {
    if d.Some? {
      var schema, errors, warnings := SchemaErrors(d), LogicErrors(d), LogicWarnings(d);
      ReportsAreInOrder(d.value);
      NamesAreDistinct();
      forall a, b | 0 <= a < b < |schema|
        ensures schema[a].field != schema[b].field
      {
        SchemaOrderIsDifferent(schema[a], schema[b]);
      }
      forall a, b | 0 <= a < b < |errors|
        ensures errors[a].field != errors[b].field
      {
        assert LogicOrder(errors[a], errors[b]);
        BeforeIsDifferent(LOGIC_FIELDS, errors[a].field, errors[b].field);
      }
      forall a, b | 0 <= a < b < |warnings|
        ensures warnings[a].field != warnings[b].field
      {
        assert WarningOrder(warnings[a], warnings[b]);
        BeforeIsDifferent(WARNING_FIELDS, warnings[a].field, warnings[b].field);
      }
    }
  }
}
