/**
 * The provider's API as the OAuth flow calls it
 * (src/services/genuka/api.service.ts): exchanging an authorization code for
 * tokens, and retrieving a company's profile. What the network answers is
 * fixed by the two functions `exchange` and `retrieve`, either of which may
 * fail with an error message; `calls` records the requests made, in order.
 */
module GenukaApi {
  import opened Wrappers

  /** The token endpoint's answer, in the shape the OAuth flow reads it. */
  datatype TokenResponse = TokenResponse(access_token: string, refresh_token: string, expires_in_minutes: int)

  /** A company profile; `None` is a property the provider left out. */
  datatype CompanyInfo = CompanyInfo(
    handle: Option<string>,
    name: string,
    description: Option<string>,
    logoUrl: Option<string>,
    contact: Option<string>)

  datatype ApiCall = Exchange(code: string) | Retrieve(companyId: string)

  class GenukaApiService {
    const exchange: string -> Result<TokenResponse, string>
    const retrieve: string -> Result<CompanyInfo, string>
    var calls: seq<ApiCall>

    constructor (exchange: string -> Result<TokenResponse, string>, retrieve: string -> Result<CompanyInfo, string>)
      ensures this.exchange == exchange && this.retrieve == retrieve && calls == []
    {
      this.exchange := exchange;
      this.retrieve := retrieve;
      calls := [];
    }

    /** `exchangeCodeForToken(code)`: one request to the token endpoint. */
    method ExchangeCodeForToken(code: string) returns (r: Result<TokenResponse, string>)
      modifies this
      ensures calls == old(calls) + [Exchange(code)]
      ensures r == exchange(code)
    {
      calls := calls + [Exchange(code)];
      r := exchange(code);
    }

    /** `getCompanyInfo(companyId)`: one request for the company's profile. */
    method GetCompanyInfo(companyId: string) returns (r: Result<CompanyInfo, string>)
      modifies this
      ensures calls == old(calls) + [Retrieve(companyId)]
      ensures r == retrieve(companyId)
    {
      calls := calls + [Retrieve(companyId)];
      r := retrieve(companyId);
    }
  }
}
