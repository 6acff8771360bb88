/** The tokens that the tokenizer reports and the matchers read, and the kinds of names that identifiers can be. */
module Tokens {

  datatype Token = Token(text: string, offset: nat)

  datatype Suggestion = KeywordName | CatalogName | SchemaName | TableName | TypeName | ColumnName | FileName
                      | ScalarFunctionName | TableFunctionName | PragmaName | SettingName | VariableName
}
