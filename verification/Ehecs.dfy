/** The EHECS tenant: its two validation layers and its item count. */
module Ehecs {
  import opened Wrappers
  import opened Records
  import opened Paths
  import opened Reports

  datatype Employee = Employee(
    ppsn: string,
    employmentId: string,
    occupationCode: int,
    employmentType: string,
    grossEarnings: real,
    basicPay: real,
    overtimePay: real,
    basicHours: real,
    overtimeHours: real,
    employerPRSI: real,
    bonuses: real,
    allowances: real,
    shiftPremiums: real,
    otherSubsidies: real)

  datatype SubmissionBody = SubmissionBody(
    holdingNumber: string,
    taxYear: int,
    quarter: int,
    returnType: string,
    employees: seq<Employee>,
    contactEmail: string,
    contactPhone: string,
    comments: string)

  const BASIC_HOURS_QUARTERLY_CAP := 2184.0

  // ---- The rules about one employee ----

  datatype Rule =
    // schema layer
    | PpsnFormat | EmploymentIdGiven | OccupationInRange | EmploymentTypeKnown
    | GrossEarningsSign | BasicPaySign | BasicHoursSign | OvertimePaySign | OvertimeHoursSign | EmployerPrsiSign
    // logic layer: errors
    | OvertimeConsistent | EarningsConsistent | HoursWithinCap
    // logic layer: warnings
    | EarningsNotZero | PrsiNotZeroFullTime

  const SCHEMA_RULES: seq<Rule> :=
    [PpsnFormat, EmploymentIdGiven, OccupationInRange, EmploymentTypeKnown,
     GrossEarningsSign, BasicPaySign, BasicHoursSign, OvertimePaySign, OvertimeHoursSign, EmployerPrsiSign]

  const LOGIC_RULES: seq<Rule> := [OvertimeConsistent, EarningsConsistent, HoursWithinCap]

  const WARNING_RULES: seq<Rule> := [EarningsNotZero, PrsiNotZeroFullTime]

  /** Seven digits, then one or two capital letters, and nothing else. */
  predicate PpsnMatches(s: string) {
    && 8 <= |s| <= 9
    && (forall k | 0 <= k < 7 :: '0' <= s[k] <= '9')
    && (forall k | 7 <= k < |s| :: 'A' <= s[k] <= 'Z')
  }

  predicate KnownEmploymentType(s: string) {
    s == "FULL_TIME" || s == "PART_TIME" || s == "TRAINEE" || s == "APPRENTICE" || s == "OTHER"
  }

  predicate Breaks(rule: Rule, e: Employee) {
    match rule
    case PpsnFormat => !PpsnMatches(e.ppsn)
    case EmploymentIdGiven => TrimSpace(e.employmentId) == ""
    case OccupationInRange => e.occupationCode < 1 || e.occupationCode > 9
    case EmploymentTypeKnown => !KnownEmploymentType(e.employmentType)
    case GrossEarningsSign => e.grossEarnings < 0.0
    case BasicPaySign => e.basicPay < 0.0
    case BasicHoursSign => e.basicHours < 0.0
    case OvertimePaySign => e.overtimePay < 0.0
    case OvertimeHoursSign => e.overtimeHours < 0.0
    case EmployerPrsiSign => e.employerPRSI < 0.0
    case OvertimeConsistent => e.overtimePay > 0.0 && e.overtimeHours == 0.0
    case EarningsConsistent => e.grossEarnings < e.overtimePay
    case HoursWithinCap => e.basicHours > BASIC_HOURS_QUARTERLY_CAP
    case EarningsNotZero => e.grossEarnings == 0.0
    case PrsiNotZeroFullTime => e.employerPRSI == 0.0 && e.employmentType == "FULL_TIME"
  }

  function Code(rule: Rule): string {
    match rule
    case PpsnFormat => "INVALID_FORMAT"
    case EmploymentIdGiven => "REQUIRED"
    case OvertimeConsistent => "OVERTIME_INCONSISTENCY"
    case EarningsConsistent => "EARNINGS_INCONSISTENCY"
    case HoursWithinCap => "HOURS_EXCEEDED"
    case EarningsNotZero => "ZERO_EARNINGS"
    case PrsiNotZeroFullTime => "ZERO_PRSI_FULL_TIME"
    case _ => "INVALID_VALUE"
  }

  function FieldName(rule: Rule): string {
    match rule
    case PpsnFormat => "ppsn"
    case EmploymentIdGiven => "employmentId"
    case OccupationInRange => "occupationCode"
    case EmploymentTypeKnown => "employmentType"
    case GrossEarningsSign => "grossEarnings"
    case BasicPaySign => "basicPay"
    case BasicHoursSign => "basicHours"
    case OvertimePaySign => "overtimePay"
    case OvertimeHoursSign => "overtimeHours"
    case EmployerPrsiSign => "employerPRSI"
    case OvertimeConsistent => "overtimeHours"
    case EarningsConsistent => "grossEarnings"
    case HoursWithinCap => "basicHours"
    case EarningsNotZero => "grossEarnings"
    case PrsiNotZeroFullTime => "employerPRSI"
  }

  function ItemFor(rule: Rule, i: nat): ValidationItem {
    ValidationItem(Code(rule), EmployeePath(i, FieldName(rule)))
  }

  // ---- Reports ----

  function EmployeeErrors(rules: seq<Rule>, n: nat, i: nat, e: Employee): seq<ValidationItem>
    requires n <= |rules|
  {
    Broken(rules, n, i, e, Breaks, ItemFor)
  }

  function EmployeesReport(rules: seq<Rule>, es: seq<Employee>): seq<ValidationItem> {
    Report(rules, es, |es|, Breaks, ItemFor)
  }

  function HeaderErrors(b: SubmissionBody): seq<ValidationItem> {
    (if TrimSpace(b.holdingNumber) == "" then [ValidationItem("REQUIRED", "holdingNumber")] else [])
    + (if b.taxYear < 2008 || b.taxYear > 2099 then [ValidationItem("INVALID_VALUE", "taxYear")] else [])
    + (if b.quarter < 1 || b.quarter > 4 then [ValidationItem("INVALID_VALUE", "quarter")] else [])
    + (if b.returnType != "" && b.returnType != "ORIGINAL" && b.returnType != "AMENDED"
       then [ValidationItem("INVALID_VALUE", "returnType")] else [])
  }

  /** `decoded` is None when the bytes do not decode as an EHECS body. */
  function SchemaErrors(decoded: Option<SubmissionBody>): seq<ValidationItem> {
    match decoded
    case None => [ValidationItem("INVALID_JSON", "")]
    case Some(b) =>
      HeaderErrors(b)
      + (if b.employees == [] then [ValidationItem("REQUIRED", "employees")]
         else EmployeesReport(SCHEMA_RULES, b.employees))
  }

  function LogicErrors(decoded: Option<SubmissionBody>): seq<ValidationItem> {
    match decoded
    case None => [ValidationItem("INVALID_JSON", "")]
    case Some(b) => EmployeesReport(LOGIC_RULES, b.employees)
  }

  function LogicWarnings(decoded: Option<SubmissionBody>): seq<ValidationItem> {
    match decoded
    case None => []
    case Some(b) => EmployeesReport(WARNING_RULES, b.employees)
  }

  function ItemCount(decoded: Option<SubmissionBody>): nat {
    match decoded
    case None => 0
    case Some(b) => |b.employees|
  }

  // ---- The validators ----

  method CheckEmployee(i: nat, e: Employee) returns (errs: seq<ValidationItem>)
    ensures errs == EmployeeErrors(SCHEMA_RULES, |SCHEMA_RULES|, i, e)
  {
    errs := [];
    if !PpsnMatches(e.ppsn) {
      errs := errs + [ValidationItem("INVALID_FORMAT", EmployeePath(i, "ppsn"))];
    }
    assert EmployeeErrors(SCHEMA_RULES, 0, i, e) == [];
    assert errs == EmployeeErrors(SCHEMA_RULES, 1, i, e);
    if TrimSpace(e.employmentId) == "" {
      errs := errs + [ValidationItem("REQUIRED", EmployeePath(i, "employmentId"))];
    }
    assert errs == EmployeeErrors(SCHEMA_RULES, 2, i, e);
    if e.occupationCode < 1 || e.occupationCode > 9 {
      errs := errs + [ValidationItem("INVALID_VALUE", EmployeePath(i, "occupationCode"))];
    }
    assert errs == EmployeeErrors(SCHEMA_RULES, 3, i, e);
    if !KnownEmploymentType(e.employmentType) {
      errs := errs + [ValidationItem("INVALID_VALUE", EmployeePath(i, "employmentType"))];
    }
    var negatives := CheckSigns(i, e, errs);
    return negatives;
  }

  /** The amounts in the order in which their signs are checked. */
  method CheckSigns(i: nat, e: Employee, before: seq<ValidationItem>) returns (errs: seq<ValidationItem>)
    requires before == EmployeeErrors(SCHEMA_RULES, 4, i, e)
    ensures errs == EmployeeErrors(SCHEMA_RULES, |SCHEMA_RULES|, i, e)
  {
    var checks := [(e.grossEarnings, "grossEarnings"), (e.basicPay, "basicPay"), (e.basicHours, "basicHours"),
                   (e.overtimePay, "overtimePay"), (e.overtimeHours, "overtimeHours"),
                   (e.employerPRSI, "employerPRSI")];
    errs := before;
    for k := 0 to 6
      invariant errs == EmployeeErrors(SCHEMA_RULES, 4 + k, i, e)
    {
      if checks[k].0 < 0.0 {
        errs := errs + [ValidationItem("INVALID_VALUE", EmployeePath(i, checks[k].1))];
      }
    }
  }

  method CheckEmployees(es: seq<Employee>) returns (errs: seq<ValidationItem>)
    ensures errs == EmployeesReport(SCHEMA_RULES, es)
  {
    errs := [];
    for i := 0 to |es|
      invariant errs == Report(SCHEMA_RULES, es, i, Breaks, ItemFor)
    {
      var more := CheckEmployee(i, es[i]);
      errs := errs + more;
    }
  }

  method CheckHeader(body: SubmissionBody) returns (errs: seq<ValidationItem>)
    ensures errs == HeaderErrors(body)
  {
    errs := [];
    if TrimSpace(body.holdingNumber) == "" {
      errs := errs + [ValidationItem("REQUIRED", "holdingNumber")];
    }
    if body.taxYear < 2008 || body.taxYear > 2099 {
      errs := errs + [ValidationItem("INVALID_VALUE", "taxYear")];
    }
    if body.quarter < 1 || body.quarter > 4 {
      errs := errs + [ValidationItem("INVALID_VALUE", "quarter")];
    }
    if body.returnType != "" && body.returnType != "ORIGINAL" && body.returnType != "AMENDED" {
      errs := errs + [ValidationItem("INVALID_VALUE", "returnType")];
    }
  }

  method ValidateSchema(decoded: Option<SubmissionBody>) returns (errs: seq<ValidationItem>)
    ensures errs == SchemaErrors(decoded)
  {
    if decoded.None? {
      return [ValidationItem("INVALID_JSON", "")];
    }
    var body := decoded.value;
    errs := CheckHeader(body);
    if |body.employees| == 0 {
      errs := errs + [ValidationItem("REQUIRED", "employees")];
      return;
    }
    var more := CheckEmployees(body.employees);
    errs := errs + more;
  }

  method CheckLogic(i: nat, e: Employee) returns (errors: seq<ValidationItem>)
    ensures errors == EmployeeErrors(LOGIC_RULES, |LOGIC_RULES|, i, e)
  {
    errors := [];
    if e.overtimePay > 0.0 && e.overtimeHours == 0.0 {
      errors := errors + [ValidationItem("OVERTIME_INCONSISTENCY", EmployeePath(i, "overtimeHours"))];
    }
    assert EmployeeErrors(LOGIC_RULES, 0, i, e) == [];
    assert errors == EmployeeErrors(LOGIC_RULES, 1, i, e);
    if e.grossEarnings < e.overtimePay {
      errors := errors + [ValidationItem("EARNINGS_INCONSISTENCY", EmployeePath(i, "grossEarnings"))];
    }
    assert errors == EmployeeErrors(LOGIC_RULES, 2, i, e);
    if e.basicHours > BASIC_HOURS_QUARTERLY_CAP {
      errors := errors + [ValidationItem("HOURS_EXCEEDED", EmployeePath(i, "basicHours"))];
    }
  }

  method CheckWarnings(i: nat, e: Employee) returns (warnings: seq<ValidationItem>)
    ensures warnings == EmployeeErrors(WARNING_RULES, |WARNING_RULES|, i, e)
  {
    warnings := [];
    if e.grossEarnings == 0.0 {
      warnings := warnings + [ValidationItem("ZERO_EARNINGS", EmployeePath(i, "grossEarnings"))];
    }
    assert EmployeeErrors(WARNING_RULES, 0, i, e) == [];
    assert warnings == EmployeeErrors(WARNING_RULES, 1, i, e);
    if e.employerPRSI == 0.0 && e.employmentType == "FULL_TIME" {
      warnings := warnings + [ValidationItem("ZERO_PRSI_FULL_TIME", EmployeePath(i, "employerPRSI"))];
    }
  }

  method ValidateLogic(decoded: Option<SubmissionBody>)
    returns (errors: seq<ValidationItem>, warnings: seq<ValidationItem>)
    ensures errors == LogicErrors(decoded) && warnings == LogicWarnings(decoded)
  {
    if decoded.None? {
      return [ValidationItem("INVALID_JSON", "")], [];
    }
    var employees := decoded.value.employees;
    errors, warnings := [], [];
    for i := 0 to |employees|
      invariant errors == Report(LOGIC_RULES, employees, i, Breaks, ItemFor)
      invariant warnings == Report(WARNING_RULES, employees, i, Breaks, ItemFor)
    {
      var moreErrors := CheckLogic(i, employees[i]);
      var moreWarnings := CheckWarnings(i, employees[i]);
      errors, warnings := errors + moreErrors, warnings + moreWarnings;
    }
  }
}
