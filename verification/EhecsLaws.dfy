/** What the EHECS validators mean, and how their two layers compose. */
module EhecsLaws {
  import opened Wrappers
  import opened Records
  import opened Paths
  import opened Reports
  import opened Ehecs

  // ---- The schema layer, declaratively ----

  ghost predicate AllWithin(s: string, low: char, high: char) {
    forall k | 0 <= k < |s| :: low <= s[k] <= high
  }

  /** Seven digits followed by one or two capital letters. */
  ghost predicate ValidPpsn(s: string) {
    exists digits, letters ::
      && s == digits + letters && |digits| == 7 && 1 <= |letters| <= 2
      && AllWithin(digits, '0', '9') && AllWithin(letters, 'A', 'Z')
  }

  lemma PpsnMatchesIff(s: string)
    ensures PpsnMatches(s) <==> ValidPpsn(s)
  {
    if PpsnMatches(s) {
      assert s == s[..7] + s[7..];
      assert AllWithin(s[..7], '0', '9') && AllWithin(s[7..], 'A', 'Z');
    }
    if ValidPpsn(s) {
      var d, a :| s == d + a && |d| == 7 && 1 <= |a| <= 2 && AllWithin(d, '0', '9') && AllWithin(a, 'A', 'Z');
      assert forall k | 0 <= k < 7 :: s[k] == d[k];
      assert forall k | 7 <= k < |s| :: s[k] == a[k - 7];
    }
  }

  ghost predicate WellFormedEmployee(e: Employee) {
    && ValidPpsn(e.ppsn)
    && !Blank(e.employmentId)
    && 1 <= e.occupationCode <= 9
    && e.employmentType in {"FULL_TIME", "PART_TIME", "TRAINEE", "APPRENTICE", "OTHER"}
    && e.grossEarnings >= 0.0 && e.basicPay >= 0.0 && e.basicHours >= 0.0
    && e.overtimePay >= 0.0 && e.overtimeHours >= 0.0 && e.employerPRSI >= 0.0
  }

  ghost predicate WellFormedBody(b: SubmissionBody) {
    && !Blank(b.holdingNumber)
    && 2008 <= b.taxYear <= 2099
    && 1 <= b.quarter <= 4
    && b.returnType in {"", "ORIGINAL", "AMENDED"}
    && b.employees != []
    && forall e | e in b.employees :: WellFormedEmployee(e)
  }

  lemma SomeSchemaRule(p: Rule -> bool)
    ensures (exists k: nat :: k < |SCHEMA_RULES| && p(SCHEMA_RULES[k]))
            <==> || p(PpsnFormat) || p(EmploymentIdGiven) || p(OccupationInRange) || p(EmploymentTypeKnown)
                 || p(GrossEarningsSign) || p(BasicPaySign) || p(BasicHoursSign)
                 || p(OvertimePaySign) || p(OvertimeHoursSign) || p(EmployerPrsiSign)
  {
    var r := SCHEMA_RULES;
    assert r[0] == PpsnFormat && r[1] == EmploymentIdGiven && r[2] == OccupationInRange;
    assert r[3] == EmploymentTypeKnown && r[4] == GrossEarningsSign && r[5] == BasicPaySign;
    assert r[6] == BasicHoursSign && r[7] == OvertimePaySign && r[8] == OvertimeHoursSign;
    assert r[9] == EmployerPrsiSign;
  }

  lemma SchemaRulesAre(e: Employee)
    ensures Keeps(SCHEMA_RULES, e, Breaks) <==>
            && !Breaks(PpsnFormat, e) && !Breaks(EmploymentIdGiven, e)
            && !Breaks(OccupationInRange, e) && !Breaks(EmploymentTypeKnown, e)
            && !Breaks(GrossEarningsSign, e) && !Breaks(BasicPaySign, e) && !Breaks(BasicHoursSign, e)
            && !Breaks(OvertimePaySign, e) && !Breaks(OvertimeHoursSign, e) && !Breaks(EmployerPrsiSign, e)
  {
    var broken := (r: Rule) => Breaks(r, e);
    SomeSchemaRule(broken);
    assert Keeps(SCHEMA_RULES, e, Breaks)
        <==> !exists k: nat :: k < |SCHEMA_RULES| && broken(SCHEMA_RULES[k]);
  }

  lemma KeepsSchemaIff(e: Employee)
    ensures Keeps(SCHEMA_RULES, e, Breaks) <==> WellFormedEmployee(e)
  {
    SchemaRulesAre(e);
    PpsnMatchesIff(e.ppsn);
    TrimSpaceIsEmptyIff(e.employmentId);
  }

  lemma AllKeepSchemaIff(es: seq<Employee>)
    ensures EmployeesReport(SCHEMA_RULES, es) == [] <==> forall e | e in es :: WellFormedEmployee(e)
  {
    ReportIsEmptyIff(SCHEMA_RULES, es, Breaks, ItemFor);
    forall i | 0 <= i < |es|
      ensures Keeps(SCHEMA_RULES, es[i], Breaks) <==> WellFormedEmployee(es[i])
    {
      KeepsSchemaIff(es[i]);
    }
  }

  /** The schema layer accepts exactly the well-formed bodies. */
  lemma SchemaAcceptsIff(d: Option<SubmissionBody>)
    ensures SchemaErrors(d) == [] <==> d.Some? && WellFormedBody(d.value)
  {
    if d.Some? {
      TrimSpaceIsEmptyIff(d.value.holdingNumber);
      AllKeepSchemaIff(d.value.employees);
    }
  }

  // ---- The logic layer ----

  /** The checks of the logic layer, as they are written. */
  predicate LogicChecks(e: Employee) {
    && (e.overtimePay > 0.0 ==> e.overtimeHours != 0.0)
    && e.grossEarnings >= e.overtimePay
    && e.basicHours <= BASIC_HOURS_QUARTERLY_CAP
  }

  /** The rules as documented, the cap written out as the documentation does. */
  predicate DocumentedRules(e: Employee) {
    && (e.overtimePay > 0.0 ==> e.overtimeHours > 0.0)
    && e.grossEarnings >= e.overtimePay
    && e.basicHours <= 2184.0
  }

  lemma LogicAcceptsIff(b: SubmissionBody)
    ensures LogicErrors(Some(b)) == [] <==> forall e | e in b.employees :: LogicChecks(e)
  {
    ReportIsEmptyIff(LOGIC_RULES, b.employees, Breaks, ItemFor);
    forall e: Employee
      ensures Keeps(LOGIC_RULES, e, Breaks) <==> LogicChecks(e)
    {
      assert Keeps(LOGIC_RULES, e, Breaks) <==>
             !Breaks(LOGIC_RULES[0], e) && !Breaks(LOGIC_RULES[1], e) && !Breaks(LOGIC_RULES[2], e);
    }
  }

  /**
   The two layers together accept exactly the well-formed bodies whose
   employees all obey the documented rules.
   */
  lemma LayersComposeIff(d: Option<SubmissionBody>)
    ensures SchemaErrors(d) == [] && LogicErrors(d) == []
            <==> d.Some? && WellFormedBody(d.value) && forall e | e in d.value.employees :: DocumentedRules(e)
  {
    SchemaAcceptsIff(d);
    if d.Some? {
      LogicAcceptsIff(d.value);
      if WellFormedBody(d.value) {
        assert forall e | e in d.value.employees :: WellFormedEmployee(e) && (LogicChecks(e) <==> DocumentedRules(e));
      }
    }
  }

  /** What every accepted employee satisfies. */
  lemma AcceptedEmployee(d: Option<SubmissionBody>, e: Employee)
    requires SchemaErrors(d) == [] && LogicErrors(d) == [] && e in d.value.employees
    ensures e.overtimePay > 0.0 ==> e.overtimeHours > 0.0
    ensures e.grossEarnings >= e.overtimePay >= 0.0
    ensures 0.0 <= e.basicHours <= BASIC_HOURS_QUARTERLY_CAP
  {
    LayersComposeIff(d);
    assert WellFormedEmployee(e) && DocumentedRules(e);
  }

  /** The logic layer alone misses a documented rule exactly where paid overtime has negative hours. */
  lemma LogicLayerGap(b: SubmissionBody)
    requires LogicErrors(Some(b)) == []
    ensures (exists e :: e in b.employees && !DocumentedRules(e))
            <==> exists e :: e in b.employees && e.overtimePay > 0.0 && e.overtimeHours < 0.0
  {
    LogicAcceptsIff(b);
    if e :| e in b.employees && e.overtimePay > 0.0 && e.overtimeHours < 0.0 {
      assert !DocumentedRules(e);
    }
    if e :| e in b.employees && !DocumentedRules(e) {
      assert LogicChecks(e);
    }
  }

  function Sample(): Employee {
    Employee("1234567A", "E1", 4, "FULL_TIME", 10.0, 10.0, 1.0, 5.0, 1.0, 1.0, 0.0, 0.0, 0.0, 0.0)
  }

  function Filing(e: Employee): SubmissionBody {
    SubmissionBody("CSO123456", 2026, 1, "ORIGINAL", [e], "", "", "")
  }

  /** Neither layer gives the documented rules without the other. */
  lemma NeitherLayerSuffices()
    ensures var e := Sample().(overtimeHours := -1.0);
            LogicErrors(Some(Filing(e))) == [] && !DocumentedRules(e) && SchemaErrors(Some(Filing(e))) != []
    ensures var e := Sample().(overtimeHours := 0.0);
            SchemaErrors(Some(Filing(e))) == [] && !DocumentedRules(e) && LogicErrors(Some(Filing(e))) != []
  {
    var negative, zero := Sample().(overtimeHours := -1.0), Sample().(overtimeHours := 0.0);
    LogicAcceptsIff(Filing(negative));
    LogicAcceptsIff(Filing(zero));
    SchemaAcceptsIff(Some(Filing(negative)));
    SchemaAcceptsIff(Some(Filing(zero)));
    assert negative in Filing(negative).employees && zero in Filing(zero).employees;
    assert !WellFormedEmployee(negative) && !LogicChecks(zero);
    SampleIsWellFormed(zero);
    SampleHolderIsGiven(zero);
  }

  lemma SampleIsWellFormed(e: Employee)
    requires e == Sample().(overtimeHours := e.overtimeHours, bonuses := e.bonuses) && e.overtimeHours >= 0.0
    ensures WellFormedEmployee(e)
  {
    assert PpsnMatches(e.ppsn) && !IsSpace(e.employmentId[0]);
    PpsnMatchesIff(e.ppsn);
    IsSpaceIff(e.employmentId[0]);
  }

  lemma SampleHolderIsGiven(e: Employee)
    ensures !Blank(Filing(e).holdingNumber)
  {
    IsSpaceIff(Filing(e).holdingNumber[0]);
  }

  lemma SampleIsAccepted()
    ensures SchemaErrors(Some(Filing(Sample()))) == [] && LogicErrors(Some(Filing(Sample()))) == []
  {
    var b := Filing(Sample());
    SampleIsWellFormed(Sample());
    SampleHolderIsGiven(Sample());
    LayersComposeIff(Some(b));
  }

  // ---- The documented sign rule ----

  predicate AllAmountsNonNegative(e: Employee) {
    && e.grossEarnings >= 0.0 && e.basicPay >= 0.0 && e.basicHours >= 0.0
    && e.overtimePay >= 0.0 && e.overtimeHours >= 0.0 && e.employerPRSI >= 0.0
    && e.bonuses >= 0.0 && e.allowances >= 0.0 && e.shiftPremiums >= 0.0 && e.otherSubsidies >= 0.0
  }

  /**
   The documentation asks that every numeric field be non-negative; the schema
   layer checks six of the ten, so an accepted body obeys exactly when its four
   optional amounts do.
   */
  lemma SignRuleHoldsIff(b: SubmissionBody)
    requires SchemaErrors(Some(b)) == []
    ensures (forall e | e in b.employees :: AllAmountsNonNegative(e))
            <==> forall e | e in b.employees ::
                   e.bonuses >= 0.0 && e.allowances >= 0.0 && e.shiftPremiums >= 0.0 && e.otherSubsidies >= 0.0
  {
    SchemaAcceptsIff(Some(b));
    assert forall e | e in b.employees :: WellFormedEmployee(e);
  }

  lemma NegativeBonusIsAccepted()
    ensures var e := Sample().(bonuses := -1.0);
            && SchemaErrors(Some(Filing(e))) == [] && LogicErrors(Some(Filing(e))) == []
            && !AllAmountsNonNegative(e)
  {
    var e := Sample().(bonuses := -1.0);
    LogicAcceptsIff(Filing(e));
    SchemaAcceptsIff(Some(Filing(e)));
    SampleIsWellFormed(e);
    SampleHolderIsGiven(e);
  }
}
