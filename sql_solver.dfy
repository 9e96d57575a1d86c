/**
 * SQLSolver: the fixed answer the startup sequence submits. Its SQL meaning
 * is not modelled; the only thing the decision logic needs is that it is a
 * constant with text.
 */
module SqlSolver {
  import opened Wrappers
  import opened Strings

  /** solveHighestSalaryNotOnFirstDay: the text block, incidental indentation
      removed, ending in a newline. */
  function SolveHighestSalaryNotOnFirstDay(): (q: string)
    ensures HasText(Some(q))
  {
    var first := "SELECT p.amount AS SALARY,\n";
    // Joined from the right, so that no prefix length has to be computed.
    var rest :=
      "       CONCAT(e.first_name, ' ', e.last_name) AS NAME,\n" + (
      "       TIMESTAMPDIFF(YEAR, e.dob, p.payment_time) AS AGE,\n" + (
      "       d.department_name AS DEPARTMENT_NAME\n" + (
      "FROM payments p\n" + (
      "JOIN employee e ON p.emp_id = e.emp_id\n" + (
      "JOIN department d ON e.department = d.department_id\n" + (
      "WHERE DAY(p.payment_time) <> 1\n" + (
      "  AND p.amount = (SELECT MAX(amount) FROM payments WHERE DAY(payment_time) <> 1);\n")))))));
    var q := first + rest;
    assert q[0] == first[0] == 'S';
    q
  }
}
